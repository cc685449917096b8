# Verified model of API-Sentinel's handlers

Dafny models of the server code whose correctness depends on more than one statement: transactions that interleave, a
cache in front of a database, a release gate with many policies, recursive settings trees, and loops that must not lose
anything. `dafny verify dfyconfig.toml` checks everything.

**Roles.** `RoleProtocol.dfy` lets invites, role changes, user deletions and the creation, editing and deletion of custom
roles interleave statement by statement, with committed reads, private writes and row locks held to the commit.
`RoleSafety.dfy` proves by an inductive invariant over all transactions in flight that no committed user ever has a role
that is not there, `RoleDeadlock.dfy` that the locks cannot deadlock, and `RoleWitness.dfy` that the guarantee holds
exactly when the database honours both FOR SHARE and FOR UPDATE: with either one ignored, as SQLite does, a run is given
that leaves a dangling role. `RoleHandlers.dfy` has the handlers as methods that update tables, and proves that the
protocol with a single transaction answers every request as its handler does.

**Endpoint cache.** `EndpointCache.dfy` interleaves readers (fetch version, look up, query, fill), writers (commit, then
bump) and evictions. `EndpointFreshness.dfy` proves every list response fresh, and `EndpointWitness.dfy` that freshness
holds exactly when five faults are excluded: a bump that fails unnoticed, an expiring version counter (its 30 days start
at the first bump and are never renewed), a lagging read replica, clashing keys, and a cache that comes back between a
failed read of the version, which counts as version 0, and the lookup under that version. `EndpointKey.dfy` decodes the
printed key and says exactly which requests share one. `EndpointService.dfy` has the handlers as methods, for every valid
request, whether or not its key is its own, and `EndpointPages.dfy` says row by row what a page shows and what each write
does to a table.

**Release gate.** `GatePolicy.dfy` (packs, query overrides, the order of strictness, enforcement, and exactly which
requests are evaluated), `QualityGate.dfy` (the base decision), `BaseReasons.dfy` (its status, and its reason as the first
failing check), `CoverageGaps.dfy` (selection coverage), `ReleaseOverlays.dfy` (the two overlays that change a decision in
place), `OverlayRecords.dfy` (what they record in it), `GateResponse.dfy` (the whole pipeline, which vulnerabilities hold
up a release, soundness of a strict pass and monotonicity in the policy),
`LegacyGate.dfy` (the older endpoint), `ReportManifest.dfy` (how the manifest describes artifacts), `ManifestGates.dfy`
(the whole manifest built from an engine plan, when building it raises, when it is complete, and how the two gates compare
on built manifests and on any), `ReplayContext.dfy` (the authentication context gathered from replay results) and
`ReplayReading.dfy` (what each of its entries says of the results).

**Trees.** `SettingsMerge.dfy` gives the laws of the recursive merge, with the exact condition under which it is
associative. `SettingsLayers.dfy` says exactly which sequences of patches may be stored and laid over the defaults
afterwards instead of being applied one by one, and `SettingsView.dfy` what is on display at every path.
`AuditRestore.dfy` gives the laws of putting metadata back into redacted audit details.

**Loops.** `LogShipper.dfy` gives the state after every turn of the shipper, `LogLines.dfy` splits a growing text, and
`LogConservation.dfy` follows whole runs: what the file gained is what is submitted, exactly under two conditions.
`BlockList.dfy`, `ReplayMatrix.dfy` and `Dashboard.dfy` are conservation laws too: every actor above the threshold is
blocked once, every replay is accounted for, no finding is lost.

`Strings.dfy`, `Sorting.dfy`, `Lists.dfy` and `Json.dfy` hold what these share. Results that a reader relies on are stated
over the data that the handlers read, not through the functions that compute them: a list is `Picked` when it is made of
exactly the items that satisfy a condition, in order and one by one.

What came out false, or weaker than the comments suggest, is stated with its exact condition and a failing input:
- Freshness fails under each of the five faults above; the literal filter value `None`, and a method with a colon in it,
  print the key of another request.
- Merging is not associative when a dict is replaced by something else and that by a dict again. So accumulated patches
  laid over the defaults can differ from the same patches applied one by one: a license set to null and then to an empty
  dict brings the default plan back in the one case and not in the other.
- A settings patch that makes `license` or `onboarding` anything but a dict is committed and breaks every later view until
  another patch repairs it.
- Building the manifest raises exactly when the engine plan has `authorization_replay` ready, available or continuous: that
  engine is in the execution order but has no artifact type. Both gates answer such a run with an error.
- The newer gate believes a manifest's `complete` flag. Neither endpoint can receive a manifest on which that matters, since
  both build it themselves; on any other manifest the gates differ exactly when a required artifact shows as missing or
  unverified.
- The log shipper repeats lines exactly when a turn submits a small batch from which an error escapes the retry loop, splits
  a line in two exactly when a read ends inside it, and reads nothing more once the file has been rotated.
- An endpoint of the replay matrix that fails after writing a vulnerable result leaves it stored but not reported.
- Custom role names are stored without outer blanks, but requests that assign a role do not strip: one that spells the name
  with a blank around it does not mean that role.
- Custom role names may have up to 100 characters, but the column of a user's role holds 50: a role that has been created
  can be given to a user exactly when its name fits.

## Model

| member | source | states |
|---|---|---|
| RoleSafety.CommittedRolesStand | server/api/routers/auth.py:25-37 | in every state of every run under both locks, each user has a fixed role, PLATFORM_ADMIN, or a custom role that exists in the same account; role names and emails stay unique |
| RoleSafety.DeletedRoleHasNoHolder | server/api/routers/custom_roles.py:132-151 | when a role row disappears, the event is the commit of its own deletion and no user holds the role then |
| RoleSafety.OnlyPlatformAdminElevates | server/api/routers/auth.py:357-366 | a user becomes PLATFORM_ADMIN only by the commit of a change requested by a PLATFORM_ADMIN |
| RoleSafety.CommitDoesTheRequest | server/api/routers/auth.py:297-382 | whatever ran in between, a commit changes the tables exactly as the request says |
| RoleDeadlock.WaiterHolds | server/api/routers/auth.py:32-36 | a transaction that waits has written nothing and owns no row exclusively, and one that waits for a role row holds no lock at all |
| RoleDeadlock.WaitsExactly | server/api/routers/custom_roles.py:132-151 | who waits for whom: for the lock on a role row as far as the database honours it, or for an unfinished write of the same row, email or role name |
| RoleDeadlock.NoWaitCycle | server/api/routers/custom_roles.py:134-151 | no chain of waiting transactions ever returns to its start, and none is longer than three |
| RoleDeadlock.AlwaysProgress | server/api/routers/custom_roles.py:134-151 | while transactions are in flight, some statement can run |
| RoleDeadlock.EveryRunDrains | server/api/routers/custom_roles.py:125-152 | from every reachable state all transactions can be brought to an end |
| RoleWitness.SafeExactlyWithBothLocks | server/api/routers/custom_roles.py:132-140 | the guarantee holds in all runs if and only if the database honours both kinds of row lock |
| RoleWitness.UnsharedCheckIsUnsafe | server/api/routers/auth.py:29-36 | without FOR SHARE a whole deletion fits between the check and the insert of an invite |
| RoleWitness.UnlockedCountIsUnsafe | server/api/routers/custom_roles.py:134-151 | without FOR UPDATE a whole invite fits between the in-use count and the delete |
| RoleHandlers.ProtocolAloneIsHandler | server/api/routers/auth.py:297-401 | on a quiet database the protocol answers each request as its handler does: the same ones succeed, with the same effect, and the others leave no trace |
| RoleHandlers.Database.InviteUser | server/api/routers/auth.py:297-343 | 400 exactly for a role that is neither fixed nor a custom one of the account, 409 exactly for an email that is taken, 500 or 200 otherwise; the new table, and its consistency |
| RoleHandlers.Database.UpdateUserRole | server/api/routers/auth.py:347-382 | which requests succeed and with what effect; 403 exactly for elevation by somebody else, 400 and 404 exactly for unknown roles and users |
| RoleHandlers.Database.DeleteUser | server/api/routers/auth.py:386-401 | removes exactly a user of the caller's account |
| RoleHandlers.Database.CreateCustomRole | server/api/routers/custom_roles.py:67-94 | creates the role under the stripped upper-case name; 400 exactly for a name that is empty, too long or reserved or for bad permissions, 409 exactly for a name that exists |
| RoleHandlers.StoredNamesAreNormal | server/api/routers/custom_roles.py:27-33 | a stored name has no lower-case letter and no blank at either end |
| RoleHandlers.PaddingAndCaseAreIgnored | server/api/routers/custom_roles.py:27-33 | blanks around the requested name and the case of its letters make no difference to the stored one |
| RoleHandlers.CreatedRoleIsMeantExactly | server/api/routers/custom_roles.py:27-33 | a later request means the created role exactly when it spells the name without its outer blanks, in whatever case |
| Strings.StripExactly | server/api/routers/custom_roles.py:28 | stripping takes exactly the blanks off both ends |
| Strings.StripIs | server/api/routers/custom_roles.py:28 | and there is only one way to do that |
| Strings.UpperExactly | server/api/routers/custom_roles.py:28 | changing case keeps the length, changes every letter and nothing else |
| RoleHandlers.Database.UpdateCustomRole | server/api/routers/custom_roles.py:98-122 | sets valid permissions on a role of the account and nothing else |
| RoleHandlers.Database.DeleteCustomRole | server/api/routers/custom_roles.py:126-152 | deletes a role of the account exactly when nobody holds it; 409 exactly when somebody does, 404 exactly when there is none |
| RoleHandlers.CreatedRoleIsAssignableExactly | server/api/routers/auth.py:297-382 | once a role has been created, an invite with a free email and a change of a user who has another role succeed exactly when its name has at most 50 characters |
| RoleHandlers.LongRoleIsNeverAssigned | server/api/routers/custom_roles.py:27-33 | a name of 51 characters that can be created and not be given to a user |
| EndpointFreshness.ResponsesAreFresh | server/api/routers/endpoints.py:80-119 | every list response of every run is the selection from one committed table that contains each write returned before the reader fetched its version |
| EndpointWitness.FreshExactlyWithoutFaults | server/modules/cache/redis_cache.py:67-117 | freshness in all runs if and only if bumps cannot fail, versions do not expire, the replica does not lag, keys do not clash and no lookup works after a failed read of the version |
| EndpointWitness.MisledReadIsUnsafe | server/modules/cache/redis_cache.py:25-45 | a reader whose version read fails, is taken for version 0 and finds the old list still filed there |
| EndpointKey.FrameRoundTrip | server/api/routers/endpoints.py:81 | decoding the printed key gives back account, version, collection, limit, offset and the text of host and method together |
| EndpointKey.KeyHasOneCleanReading | server/api/routers/endpoints.py:51-81 | every printed key has one unambiguous reading, and it is the request itself exactly when the request is clean |
| EndpointKey.KeysClashExactly | server/api/routers/endpoints.py:81 | two valid requests share a key exactly when they agree on everything but how the text of host and method falls apart |
| EndpointKey.CleanKeysDiffer | server/api/routers/endpoints.py:81 | on clean requests the key determines account, version and every filter, though the host may contain colons |
| EndpointKey.LiteralNoneClashes | server/api/routers/endpoints.py:81 | the host filter None shares the key of the unfiltered list |
| EndpointKey.ColonMethodClashes | server/api/routers/endpoints.py:81 | two different requests, one with a colon in its method, that share a key |
| EndpointService.Service.GetEndpoints | server/api/routers/endpoints.py:40-119 | for every valid request, cached or not, the answer is the current selection of a served request with the same key, and of the request itself when no other served request has its key |
| EndpointService.CleanRequestsAreAlone | server/api/routers/endpoints.py:81 | among clean requests none shares its key with another |
| EndpointPages.SelectExactly | server/api/routers/endpoints.py:70-92 | a page shows, of the rows that pass every given filter and in listing order, those from the offset on, up to the limit |
| EndpointPages.PagesContinue | server/api/routers/endpoints.py:90-91 | the next page goes on where one ends: together they are the longer page |
| EndpointPages.CreatedIsListed | server/api/routers/endpoints.py:215-240 | a new endpoint is listed with its method in upper case and moves no other |
| EndpointPages.UpdatedExactly | server/api/routers/endpoints.py:244-266 | an update sets the given fields of the named row and touches nothing else |
| EndpointPages.DeletedExactly | server/api/routers/endpoints.py:270-288 | a deletion leaves exactly the other rows, in their order |
| EndpointService.CommitDoesTheWrite | server/api/routers/endpoints.py:215-288 | the protocol commits the newest table with the write applied, or nothing for an empty patch or an unknown row |
| EndpointService.Service.CreateEndpoint | server/api/routers/endpoints.py:215-240 | the new table; no cached list survives as current |
| EndpointService.Service.UpdateEndpoint | server/api/routers/endpoints.py:244-266 | the new table, or nothing at all for an empty patch |
| EndpointService.Service.DeleteEndpoint | server/api/routers/endpoints.py:270-288 | 404 exactly for an unknown endpoint, otherwise the table without it |
| EndpointService.DeletedIsGone | server/api/routers/endpoints.py:283-287 | a deleted endpoint is in no later list and every other matching one still is |
| GatePolicy.ResolveGatePolicy | server/api/routers/cicd.py:398-453 | the loop over the query and the defaults computes the policy in force |
| GatePolicy.FailOnExactly | server/modules/cicd/quality_gate.py:98-108 | the severities that block are those that the comma-separated text names up to case and blanks; naming none means the default pair, naming just none means no severity |
| GatePolicy.PacksExactly | server/modules/cicd/policy_packs.py:6-75 | which names mean a pack, and the severities and flags of each |
| GatePolicy.ReasonsExactly | server/api/routers/cicd.py:472-518 | each override reason is reported exactly when its field is weaker than strict; missing severities come sorted and complete |
| GatePolicy.NoReasonExactlyAtLeastStrict | server/api/routers/cicd.py:379-395 | there is no reason exactly when the policy is at or above the strict one, confirmed-only gating counting the other way round |
| GatePolicy.StrongerHasFewerReasons | server/api/routers/cicd.py:472-518 | strengthening any field never adds a reason |
| GatePolicy.EnforcedExactly | server/api/routers/cicd.py:521-554 | evaluation goes on exactly at or above strict, or with overrides asked for by a caller who may trigger; 400 exactly below strict without asking, 403 exactly below strict when asked for without that permission; the override reasons reported |
| GatePolicy.StrictExactly | server/api/routers/cicd.py:398-453 | for every known pack and query the policy in force is at least strict exactly when the query weakens nothing and, on the advisory and evidence-only packs, gives both the severities and the confirmatory retests |
| GatePolicy.EvaluationGoesOnExactly | server/api/routers/cicd.py:398-554 | for every pack, query and caller, evaluation goes on exactly when the pack is known and the query keeps it strict or overrides are asked for by a caller who may trigger |
| GatePolicy.PacksThatAreStrict | server/modules/cicd/policy_packs.py:6-75 | of the four packs, strict and llm-strict are at least strict and the other two are not |
| QualityGate.SortEvidence | server/modules/cicd/quality_gate.py:1095-1149 | the loop sorts every result, in order, into exactly the evidence lists it belongs to |
| QualityGate.SortVulnerable | server/modules/cicd/quality_gate.py:1095-1149 | the loop sorts the vulnerable results likewise |
| QualityGate.EvaluateQualityGate | server/modules/cicd/quality_gate.py:1047-1335 | the lists and the first failing check together give the base verdict |
| QualityGate.BasePassesExactly | server/modules/cicd/quality_gate.py:1151-1222 | the base gate passes exactly the completed runs whose every result the policy tolerates, and its verdict is coherent |
| QualityGate.BasePassIsMonotone | server/modules/cicd/quality_gate.py:1151-1222 | what passes under a policy passes under every weaker one |
| QualityGate.SeverityExactly | server/modules/cicd/quality_gate.py:111-113 | the severity of a finding is one of six, and unknown when the text spells none of them up to case and blanks |
| BaseReasons.VerdictByStatus | server/modules/cicd/quality_gate.py:1151-1158 | pending exactly for a run that is neither completed, failed nor canceled; the reasons for failed and canceled exactly for those |
| BaseReasons.ReasonIsFirstFailingCheck | server/modules/cicd/quality_gate.py:1159-1222 | on a completed run the reason is the first check, in the written order, that the run or a result fails, and a pass says whether unconfirmed findings were let through |
| CoverageGaps.CollectGaps | server/api/routers/cicd.py:585-644 | the outer loop collects, in order, the gaps of every trusted detail |
| CoverageGaps.CollectTargetGaps | server/api/routers/cicd.py:610-643 | the inner loop collects the gaps of one detail's known targets, in order and with repetitions |
| CoverageGaps.MissingFieldsExactly | server/api/routers/cicd.py:647-676 | a missing-field list is strictly sorted and names exactly the failing fields |
| CoverageGaps.NotReadyExactly | server/api/routers/cicd.py:679-716 | a target is reported as not ready exactly when it is requested, claimed to be available and has nothing that can run |
| CoverageGaps.GapsInOrder | server/api/routers/cicd.py:585-644 | the gaps of a detail name its uncovered targets one by one |
| CoverageGaps.TargetGapSays | server/api/routers/cicd.py:610-643 | a gap names engine, artifact and target, says in which of three ways the target falls short, and lists exactly what is missing |
| CoverageGaps.NoDetailsGap | server/api/routers/cicd.py:599-608 | a detail without a dict of entries has one gap, of no particular target |
| CoverageGaps.TargetsInOrder | server/api/routers/cicd.py:590-594 | the targets are the known ones that the list names, in order and with repetitions |
| CoverageGaps.NoGapsExactly | server/api/routers/cicd.py:585-716 | no gap is collected exactly when every known target of every trusted detail has all fields and is ready where it claims to be |
| ReleaseOverlays.Decision.ApplyEngineArtifactAccountabilityGate | server/api/routers/cicd.py:737-928 | the whole decision afterwards: counts, shortened lists, policy flag and verdict |
| ReleaseOverlays.Decision.CheckArtifacts | server/api/routers/cicd.py:869-928 | the six in-place checks together fail a passing decision with the first check that fails |
| ReleaseOverlays.Decision.ApplyLifecycleTicketingGate | server/api/routers/cicd.py:1075-1131 | the whole decision afterwards: ticket counts, lists, policy flag and verdict |
| ReleaseOverlays.ReasonIsFirstFailingCheck | server/api/routers/cicd.py:869-928 | the reason is the first check, in the written order, that the manifest fails, and there is none exactly when it fails no check |
| ReleaseOverlays.OverlaysPassExactly | server/api/routers/cicd.py:869-928 | a decision passes an overlay exactly when it passed before and the overlay, if demanded, has no objection |
| ReleaseOverlays.OverlaysOnlyFail | server/api/routers/cicd.py:1120-1131 | both overlays keep status, flag and exit code coherent and leave a decision that does not pass as it is |
| ReleaseOverlays.OverlaysAreIdempotent | server/api/routers/cicd.py:737-928 | applying either overlay again changes nothing in the whole decision |
| ReleaseOverlays.OverlaysCommute | server/api/routers/cicd.py:1279-1303 | in either order the decision is the same but for the reason, which differs exactly when both overlays object to a pass |
| OverlayRecords.ArtifactsRecorded | server/api/routers/cicd.py:745-866 | after the artifact overlay every defect of required and continuous artifacts and of selection details is counted, with the first 25 of each kind, and the policy flag is set |
| OverlayRecords.TicketsRecorded | server/api/routers/cicd.py:1081-1118 | after the ticket overlay the vulnerabilities in scope, unticketed, unhealthy and overdue are counted and listed likewise, and ticketing is complete exactly when none is unticketed or unhealthy |
| GateResponse.RunScopeIds | server/api/routers/cicd.py:931-947 | the loop gathers exactly the identifiers named by the run or by a result |
| GateResponse.LoadScopedBlockingVulnerabilities | server/api/routers/cicd.py:950-978 | exactly the open blocking rows of the account in scope, endpoints taking precedence over templates |
| GateResponse.LoadedExactly | server/api/routers/cicd.py:931-978 | loaded are, in order, exactly the rows of the account with a blocking severity, no false-positive mark and an open status, at an endpoint that the run or a result names or, when none is named, of a template that is |
| GateResponse.EvaluateGateResponse | server/api/routers/cicd.py:1188-1314 | the response of the pipeline: 429, 400, 403, 500 when the manifest cannot be built, or the decision with its mode and every recorded entry |
| GateResponse.PassesExactly | server/api/routers/cicd.py:1233-1303 | the whole gate passes exactly the runs that the policy has nothing against |
| GateResponse.PassIsMonotone | server/api/routers/cicd.py:1233-1303 | what passes under a policy passes under every weaker one, through every stage |
| GateResponse.StrictPassIsSound | server/api/routers/cicd.py:1188-1314 | a pass in strict mode means a policy at least strict and a run clean by the strict policy's measure, whatever policy was in force and whoever asked |
| GateResponse.StrictResponseIsSound | server/api/routers/cicd.py:1188-1314 | a response, to any request, that passes in strict mode is about a run that is clean by the strict policy's measure |
| GateResponse.StrictPackPassesExactly | server/api/routers/cicd.py:379-395 | the strict pack passes exactly the runs that are clean by that measure |
| LegacyGate.BlockArtifacts | server/api/routers/cicd.py:1789-1813 | the loop gives one reason per defective artifact, by precedence |
| LegacyGate.OneBlockPerDefectiveArtifact | server/api/routers/cicd.py:1789-1813 | exactly the artifacts in at least one of the newer gate's five lists get a reason; the five counts add up to between that number and twice that number |
| LegacyGate.BlockSays | server/api/routers/cicd.py:1789-1813 | the reason for an artifact names its engine and type and the first of its defects |
| LegacyGate.ReasonsInOrder | server/api/routers/cicd.py:1778-1829 | the first 25 replays without boundary coverage, the artifacts, and every vulnerable result of a blocking severity, each in order |
| LegacyGate.VulnerableCountExactly | server/api/routers/cicd.py:1822 | the count is that of the vulnerable results |
| LegacyGate.LegacyCiGateDecision | server/api/routers/cicd.py:1745-1837 | the reasons in their order, the pass flag and the count of vulnerable results |
| LegacyGate.LegacyPassesExactly | server/api/routers/cicd.py:1815-1829 | what a pass of the older gate means |
| ReportManifest.ExecutionArtifactIndex | server/modules/test_executor/reporting.py:365-393 | each artifact type is indexed with its first row's content and the number of its rows |
| ReportManifest.DescribedDefects | server/modules/test_executor/reporting.py:725-804 | a description names engine and type, and the gates see in it missing, duplicated, ungoverned, not isolated or not verified exactly as the stored content deserves |
| ReportManifest.AccountForEngines | server/modules/test_executor/reporting.py:840-905 | the loop describes every engine in order, and completeness means an engine plan and three empty lists of the gates |
| ManifestGates.BuildReportArtifactManifest | server/modules/test_executor/reporting.py:807-943 | the manifest built from engine plan and stored artifacts, or the error raised on the way |
| ManifestGates.BuildRaisesExactly | server/modules/test_executor/reporting.py:19-25 | building raises exactly when the plan has the replay engine ready, available or continuous |
| ManifestGates.ReplayPlanRaises | server/modules/test_executor/reporting.py:19-25 | a plan on which it raises |
| ManifestGates.CompleteMeansDelivered | server/modules/test_executor/reporting.py:807-943 | a manifest is complete exactly when there is a plan and every engine that it has ready left one artifact that is authentic, from that engine and run, governed, and isolated where required |
| ManifestGates.GatesAgreeOnBuiltManifests | server/modules/test_executor/reporting.py:807-943 | on every built manifest, with an engine plan or without, what the newer gate accepts the older one accepts, and with a plan the newer gate asks for just that and for its demands on continuous artifacts and selection |
| ManifestGates.OlderGateAgreesExactly | server/api/routers/cicd.py:869-928 | on any manifest that the newer gate accepts, the older one agrees exactly when no required artifact shows as missing or as unverified |
| ManifestGates.GatesDifferOnInconsistentManifests | server/api/routers/cicd.py:901-905 | there is a manifest, though none that is built, on which they disagree |
| ReplayContext.AuthorizationReplayAuthContext | server/api/routers/cicd.py:236-337 | the loop over the results gathers the eight collections and summarises them |
| ReplayContext.GatherConcat | server/api/routers/cicd.py:246-307 | of two parts of the results the sets unite and the boundary counts add up |
| ReplayContext.ContextOfPermutation | server/api/routers/cicd.py:309-330 | the context does not depend on the order of the results |
| ReplayContext.AuthenticatedExactly | server/api/routers/cicd.py:252-337 | authenticated exactly when some result is a qualifying replay; no count exceeds the number of results, nor vulnerable pairs the pairs |
| ReplayReading.PairsExactly | server/api/routers/cicd.py:252-277 | the pairs are those of the replays with an identified attacker, by id, role or the word unknown, and the vulnerable ones those of the vulnerable replays |
| ReplayReading.ContextExactly | server/api/routers/cicd.py:279-330 | each list of the context is sorted and counted and holds exactly the kinds, fields or issues that some replay names, and the boundary count is that of the replays with a boundary |
| SettingsMerge.DeepMerge | server/api/routers/akto_admin.py:55-62 | the recursion with its local copy computes the merge, for any order of the keys |
| SettingsMerge.AssociativeExactly | server/api/routers/akto_admin.py:55-62 | the two groupings of three layers agree exactly when, wherever a dict is replaced and that by a dict again, the last one overwrites all of the first |
| SettingsMerge.NeverReplacedAssociates | server/api/routers/akto_admin.py:55-62 | in particular when no path holds a dict, then something else, then a dict |
| SettingsMerge.AssociativityCanFail | server/api/routers/akto_admin.py:55-62 | three layers on which the groupings differ |
| SettingsMerge.ReapplyingChangesNothing | server/api/routers/akto_admin.py:367 | applying a patch again changes nothing |
| SettingsLayers.EveryPatchLayersExactly | server/api/routers/akto_admin.py:366-370 | the stored patches laid over the defaults equal the patches applied one by one after every single patch exactly when each patch associates with the defaults and what was stored before it |
| SettingsLayers.StoredPatchesLayerExactly | server/api/routers/akto_admin.py:144 | after all patches the two are equal exactly when, wherever a patch puts something else on a dict of the defaults, the dicts that follow are none or overwrite all of it |
| SettingsLayers.RespectfulPatchesLayer | server/api/routers/akto_admin.py:144 | in particular when no patch replaces a dict of the defaults by something else |
| SettingsLayers.LayeringCanFail | server/api/routers/akto_admin.py:144 | two patches of the license on which they differ |
| SettingsMerge.AccountSettings.Modify | server/api/routers/akto_admin.py:357-374 | the new stored settings and the view, which may be an error after the commit |
| SettingsView.ViewShowsExactly | server/api/routers/akto_admin.py:144-165 | at every path that the view does not fill in itself, a stored value that is no dict is on display, a default that the stored settings do not reach still is, and one that they cut off is not |
| SettingsView.PatchIsShown | server/api/routers/akto_admin.py:366-374 | a patched value that is no dict is on display after the patch, whatever was stored before |
| SettingsView.RestIsKept | server/api/routers/akto_admin.py:367 | what the patch does not reach is stored as before |
| SettingsView.MergeShowsExactly | server/api/routers/akto_admin.py:55-62 | what a merge has at every path: the value on top, the one below, nothing, or a dict |
| SettingsView.FreshLicenseExactly | server/api/routers/akto_admin.py:141-151 | with nothing stored the plan decides the allowances, and an unknown plan has those of the free one |
| SettingsView.FreshOnboardingExactly | server/api/routers/akto_admin.py:130-164 | with nothing stored onboarding starts at deployment, with its four checks as the system stands |
| SettingsMerge.ViewExistsExactly | server/api/routers/akto_admin.py:144-165 | building the view raises exactly when the stored license, onboarding or validation has the wrong shape |
| SettingsMerge.WipedLicenseLasts | server/api/routers/akto_admin.py:144-151 | after a license of null the view raises, and goes on raising under every patch without a license |
| SettingsMerge.LiveLicenseWins | server/api/routers/akto_admin.py:145-151 | plan and usage on display are the live ones; without an account row the stored plan is |
| SettingsMerge.StoredValidationWins | server/api/routers/akto_admin.py:152-164 | a stored validation flag wins over the live signal, key by key |
| AuditRestore.Restore | server/api/routers/audit_logs.py:54-66 | the recursion over dicts and lists computes the restored tree |
| AuditRestore.SafetyKeysRestored | server/api/routers/audit_logs.py:55-59 | wherever both trees have a dict at the same place, each safety key that is a dict in the scan equals it afterwards |
| AuditRestore.OtherPositionsKept | server/api/routers/audit_logs.py:60-66 | no position reached without a key that is taken over appears, disappears or changes its scalar, its length or its other keys; safety keys that are no dict in the scan stay |
| AuditRestore.RestoreSelf | server/api/routers/audit_logs.py:54-66 | restoring a tree from itself gives it back |
| AuditRestore.RestoreIsIdempotent | server/api/routers/audit_logs.py:54-66 | restoring a second time changes nothing |
| LogShipper.Shipper.Ship | server/agents/log_shipper.py:105-142 | at most six attempts and 48 seconds of waits, ending with the first reply that decides; an error escapes exactly when that reply is one; the counters afterwards |
| LogShipper.Shipper.ReadNewLines | server/agents/log_shipper.py:83-103 | the lines of what the file gained, or a closed handle once it shrank, on which every later read raises |
| LogShipper.Shipper.Poll | server/agents/log_shipper.py:178-187 | the whole state after the file was opened, read, found shrunk or found missing, and whether the turn goes on |
| LogShipper.Shipper.Flush | server/agents/log_shipper.py:189-203 | the first 500 lines are submitted and leave the buffer, but a smaller batch stays exactly when an error escapes |
| LogShipper.Shipper.TakeTurn | server/agents/log_shipper.py:177-203 | handle, position, buffer, chunks read and batches submitted after one turn |
| LogShipper.Shipper.Run | server/agents/log_shipper.py:168-216 | the same after any number of turns and the final flush |
| LogLines.LinesExactly | server/agents/log_shipper.py:99-102 | no line has a newline in it, and the lines with their newlines are the text, or the text and a last newline |
| LogLines.ChunksReadWholeLinesExactly | server/agents/log_shipper.py:99-103 | reading in chunks yields the lines of the text exactly when no chunk ends inside a line that goes on |
| LogLines.TornLine | server/agents/log_shipper.py:99-103 | a line that is read in two parts becomes two lines |
| LogConservation.SubmittedOnceExactly | server/agents/log_shipper.py:177-210 | over every run, what was read is submitted once and in order exactly when no turn submits a small batch from which an error escapes |
| LogConservation.ShipsWhatTheFileGainedExactly | server/agents/log_shipper.py:83-210 | when the file only grows, the lines submitted are those of the text that it gained exactly when no read tears a line and no error escapes from a small batch |
| LogConservation.BatchesAreBounded | server/agents/log_shipper.py:189-196 | every batch before the final flush holds 1 to 500 lines |
| LogConservation.ClosedReadsNothing | server/agents/log_shipper.py:83-97 | after a rotation nothing is read any more, whatever the file does |
| LogConservation.EscapingErrorRepeatsALine | server/agents/log_shipper.py:194-203 | a run of three turns that submits one line twice |
| BlockList.Store.BlockIp | server/api/routers/blocklist.py:83-116 | 409 exactly when the address is blocked, by then or by another session meanwhile; otherwise one new row |
| BlockList.Store.UnblockIp | server/api/routers/blocklist.py:120-135 | removes the row, or answers 404 and changes nothing |
| BlockList.WithoutExactly | server/api/routers/blocklist.py:127-134 | exactly the named row goes |
| BlockList.UnblockUndoesBlock | server/api/routers/blocklist.py:83-135 | unblocking right after blocking restores the list |
| BlockList.Store.AutoBlockHighRisk | server/api/routers/blocklist.py:166-209 | the rows added in one commit, or none when it breaks the constraint; at most one row per account and address throughout |
| BlockList.AutoBlockBlocksExactly | server/api/routers/blocklist.py:173-203 | afterwards exactly the addresses blocked before and those of actors at or above the threshold are blocked, and other accounts are as before |
| BlockList.NewRowsInOrder | server/api/routers/blocklist.py:178-199 | one row, in order, for each such actor whose address was not blocked before, with its reason, risk and events |
| BlockList.SecondRunAddsNothing | server/api/routers/blocklist.py:173-203 | with unique actors the commit succeeds and an immediate second run adds nothing |
| BlockList.AutoBlockFitsExactly | server/api/routers/blocklist.py:187-203 | the commit succeeds exactly when the picked actors have distinct addresses, since the loop never updates its set |
| ReplayMatrix.AttackersExactly | server/api/routers/bola.py:182-203 | requested attackers are exactly the requested accounts, the default ones all but the victim, and there is at least one |
| ReplayMatrix.AttackersInOrder | server/api/routers/bola.py:182-203 | they come in the order of the accounts |
| ReplayMatrix.Session.RunEndpoint | server/api/routers/bola.py:248-467 | one result per attacker, counts that say what the results say, and the rows written up to the first error |
| ReplayMatrix.Session.Attack | server/api/routers/bola.py:306-467 | the loop over attackers: rows, known vulnerabilities, created and merged |
| ReplayMatrix.Session.ScanMatrix | server/api/routers/bola.py:553-652 | a summary per endpoint in order, skipped exactly for an HTTP error and failed for any other, each total the sum of its own count over the completed ones, and the rows stored |
| ReplayMatrix.CreatedPlusMerged | server/api/routers/bola.py:586-639 | created and merged vulnerabilities together are the vulnerable results |
| ReplayMatrix.FirstResultExists | server/api/routers/bola.py:510 | a completed endpoint has a first result, that of its first attacker |
| ReplayMatrix.RequestedIsCompletedPlusErrors | server/api/routers/bola.py:641-652 | requested endpoints are the completed ones plus the skipped or failed ones |
| ReplayMatrix.StoredIsReportedExactly | server/api/routers/bola.py:586-639 | the vulnerable results stored are those reported exactly when no endpoint fails after writing one |
| ReplayMatrix.FailedEndpointLeavesAFinding | server/api/routers/bola.py:586-639 | an endpoint whose second replay fails after the first was written as vulnerable |
| Dashboard.HistogramIsFaithful | server/api/routers/dashboard.py:110-117 | one entry per endpoint with findings, whose counts, total and weighted sum are those of its findings |
| Dashboard.TotalsAddUp | server/api/routers/dashboard.py:119-135 | over all entries, open findings and weights add up to those of the findings that have an endpoint |
| Dashboard.RowsSayWhatFindingsSay | server/api/routers/dashboard.py:119-135 | each row has the counts and number of the findings at its endpoint, and as risk the endpoint's own score plus 25, 15, 5 and 1 for each critical, high, medium and low finding, without fraction and up to 100 |
| Dashboard.TopEndpointRisk | server/api/routers/dashboard.py:106-137 | the two loops compute the rows, and the first five in rank are kept |
| Dashboard.TopDominates | server/api/routers/dashboard.py:136-137 | the rows kept are in order, at most five, and rank at least as high as every row dropped |
| Dashboard.RankedIsStable | server/api/routers/dashboard.py:136 | rows that tie keep the order of their first findings |
| Dashboard.RiskScore | server/api/routers/dashboard.py:80-84 | 5 for each violation and the same weights for the findings, up to 100 |
| Dashboard.SlaCounts | server/api/routers/dashboard.py:61-77 | overdue before now, due soon within 604800 seconds, on track later; every finding is counted once |

## Left out

- Role writers outside `auth.py` and `custom_roles.py`: `organization.py` stores an invited role unchecked, and signup and OAuth create users; the guarantee covers only the modelled handlers.
- A description-only edit of a custom role, audit log rows, passwords and quotas: they do not touch what the role guarantee is about.
- Other isolation levels than read committed with row locks: PostgreSQL's lock modes are modelled as far as the handlers' statements use them.
- Endpoint writers outside `endpoints.py`, which do not bump the version, and other columns of an endpoint row: `collections.py` moves endpoints between collections.
- Redis being switched off for 30 seconds after an error: each call may fail or work by itself instead, also one after the other in the same request.
- A Redis that loses acknowledged writes.
- How validation patterns and lengths of list filters are checked: a filter that is present is taken to be non-empty, and a collection id to be a UUID.
- EndpointWitness.FreshExactlyWithoutFaults: the cache's time to live is modelled as an eviction at any moment, not as a duration.
- QualityGate.SortEvidence: the source has one loop over the results; the model runs it once for the lists that every result can land in and once for those of vulnerable results.
- QualityGate.SortVulnerable: the second half of that loop, which never looks at the lists of the first.
- The evidence helpers behind the base gate (hashes, completeness, retests, judge signals, safety policies): each result carries what they report.
- Ticket sync health and SLA status of a vulnerability: a summary carries whether a ticket is present, its sync unhealthy and its due date passed.
- Signing, auditing and quota bookkeeping of a gate decision, and the fields of the decision that only echo inputs.
- LegacyGate.LegacyCiGateDecision: takes the manifest as built; when building it raises is stated by ManifestGates.BuildRaisesExactly.
- ManifestGates.BuildReportArtifactManifest: how selection accountability is built, and the counts and names beside the fields that the gates read, are parameters; other sections of the manifest are left out.
- Redaction and printing: parameters of the models that use them; texts in the models are what is left after redaction.
- ReplayContext.AuthorizationReplayAuthContext: evidence arrives as a decoded document; decoding it is not modelled.
- SettingsMerge.View: the sections of the defaults with constant values are a parameter.
- AuditRestore.Restore: returns a new tree where the source writes into the redacted one; sharing of subtrees between the two trees is not modelled, and restoring a subtree from itself changes nothing.
- LogShipper.Shipper.TakeTurn: bytes that are not valid UTF-8, carriage returns, heartbeats and the start-from-the-beginning option are not modelled; a file is the text that reading it yields.
- LogShipper.Shipper.Ship: an error that is not a request error is one reply that escapes the retry loop, without partial updates of the counters.
- BlockList.Store.AutoBlockHighRisk: expiry of blocks, list, summary and nginx export only read rows.
- ReplayMatrix.Session.Attack: how a replay is judged, its evidence and its fingerprint are inputs; a database error that spoils the whole transaction is not modelled.
- Dashboard: finding categories, trends and the governance report are lookups and formatting.
- Case folding and white space follow ASCII.
- The React pages, hooks, migrations, settings classes, billing webhooks and demo data would add only easy members.
