# Verified core of the SRE agent repository

A Dafny model of the parts of the repository whose correctness is an argument rather than a
calculation, with that argument proved. `dafny verify dfyconfig.toml` checks everything.

1. **Audit migrations.** `RevisionGraph.dfy` holds revision graphs and their heads.
   `AuditMigration.dfy` is the state machine over (applied revisions, rows, CHECK, validated) with
   insert, upgrade and downgrade transactions, for any history. `RepositoryHistory.dfy` instantiates
   it with the 46 revisions under `migrations/versions`, their CHECK texts (ordered, because the
   deferral is keyed on the text) and guards. `AuditStore.dfy` performs the transactions in place.
   The dependency order of the missing revisions is arbitrary, and a transaction is atomic.
2. **Workflow contract.** `Workflow.dfy` gives runs and well-formedness, `WorkflowChecker.dfy` the
   checker.
3. **Schemas and pointers.** `Json.dfy`, `Text.dfy`, `JsonPointer.dfy` (sections 3 and 4 of RFC 6901),
   `JsonSchema.dfy` (what a schema accepts), `OpenObjects.dfy` (the walk for open objects),
   `SchemaPositions.dfy` (where a document holds schemas, and what the walk misreads) and
   `SafeProjection.dfy` (the audit of public schemas).
4. **Authorization matrix.** `Authorization.dfy`.
5. **Account bootstrap.** `AccountBootstrap.dfy` (serialised runs against an unreliable service) and
   `BootstrapLock.dfy` (why they must be serialised).
6. **Chat outbox and taps.** `ChatOutbox.dfy`, `ChatDecisions.dfy` (what every run of taps keeps) and
   `TapOutcomes.dfy` (what a press leads to).
7. **Small protocols.** `WorktreePorts.dfy`, `WorktreeNames.dfy`, `WorktreeEnvironment.dfy`,
   `Affordability.dfy`, `ConsumptionLedger.dfy` and `FaultController.dfy`.

Where the code falls short of a promise, the shortfall is proved and so is the exact condition under
which the promise holds:

- The downgrade of 20260902_04 narrows the CHECK without a guard (`ControlPlaneDowngradeHasNoGuard`,
  `GuardsAreCompleteExceptOne`).
- `_unclosed_object_paths` says that a properties-bearing schema always counts as an object. It reads
  the names under `properties`, `$defs` and the like as keywords, and data as schemas: below a name
  `if`, `then` or `else` an untyped open schema is missed, and a name `properties` or data that looks
  like an open schema makes a closed document count as open (`ReportIsWrongIff`, with
  `ConditionalNamesHideOpenSchemas`, `NamePropertiesIsReported` and `DataIsReported`). On documents
  without these the report is exact (`ReportIsExactOnPlainDocuments`). A document with neither
  `type: object` nor a `properties` mapping anywhere is never reported (`UntypedSchemasFailOpen`).
- `_resolve_pointer` accepts leading zeros and other digits, which section 4 of RFC 6901 forbids
  (`LenientOnlyOnLooseIndices`), and raises on digits that are not decimal (`RaisesIff`).
- The scenario check alone accepts an allow the engine denies (`ScenarioCheckAloneIsNotEnough`,
  `AcceptedScenarioMatchesEngineIff`).
- A key listing answered without its list reads as empty, and a killed process can leave a key
  creation running; when a listing shows no key for either reason, a second key can appear
  (`SecondKeyIff`). The bootstrap reads the credentials file and replaces it later: an edit in between
  survives exactly as `EditInWindowSurvivesIff` says.
- A tap whose command decided can still be recorded as refused, by a second worker whose replay a
  guard refuses (`RefusedReplayHidesTheDecision`); without such refusals, or without expired claims, the
  recorded outcome is exact (`OutcomeIsExactWithoutRefusals`, `OutcomeIsExactWithoutExpiry`).
- `queue_tap` sends a button again only after an outcome that decided nothing. A tap whose five claims
  died without any outcome is never sent again (`ExhaustedTapIsStuck`); in every other case a press on
  the current version decides (`PressDecides`).
- A cap admitted for a text can exceed an endpoint's window when the endpoint lists a prompt capacity
  below its window, or when another endpoint lists no window (`AdmittedCallsCanBeRejected`,
  `AdmittedCallsFitIff`).
- A refusal can name the limit that is not short (`RefusalNamesTheWrongLimitIff`).
- Without a Docker inventory a rerun refuses the ports its own containers hold
  (`OwnRunningPortsAreAcceptedIff`).
- A table abandoned under its fault name is never repaired by a later run
  (`AbandonedTableIsNeverRepaired`).

## Model

| member | source | states |
|---|---|---|
| `RevisionGraph.AncestorsHaveOneHead` | migrations/env.py:32-37 | applying a target with all its ancestors leaves the target as the single head |
| `RevisionGraph.HeadsBound` | migrations/env.py:35-37 | current heads inside the target's ancestors mean everything applied is |
| `RevisionGraph.TargetIsAppliedOnlyAsSoleHead` | migrations/env.py:36-37 | with heads below the target, the target is applied iff it is the only head, which is the test the code makes |
| `AuditMigration.GuardMeansForward` | migrations/env.py:27-37 | on the guarded route the target is still missing and all that is applied is below it |
| `AuditMigration.DowngradeIsNeverGuarded` | migrations/env.py:27-37 | with a strict descendant of the destination applied, the plain route is taken |
| `AuditMigration.MissingWideCheckAdmitsRows` | migrations/env.py:38-46 | rows declared by applied revisions pass the CHECK of any missing revision on the validating path |
| `AuditMigration.DeferredRunCommits` | migrations/env.py:75-92 | any run of missing revisions with deferral commits, keeps the rows, applies exactly the plan and ends validated once the union head is in |
| `AuditMigration.GuardedUpgradeCommits` | migrations/env.py:63-103 | for every sound history, every upgradable database and every dependency-respecting order, the guarded upgrade commits with the same rows, the target as sole head, the CHECK of the last replacing revision of the plan, and that CHECK validated over all rows |
| `AuditMigration.CommitCheckPasses` | migrations/env.py:93-101 | once the missing ancestors ran, the final condition of the code reduces to the validated flag |
| `AuditMigration.PlainRunIsConsistent` | migrations/env.py:71-74 | the unguarded path, if it commits, keeps rows and consistency |
| `AuditMigration.PlainRunFailsIff` | migrations/env.py:71-74 | the unguarded path rolls back iff some CHECK it creates excludes a row |
| `AuditMigration.RunUpAppliesThePlan` | migrations/env.py:71-92 | for any history, state and deferral a committed run has applied its plan and nothing else and ends on the CHECK of its last replacing revision |
| `AuditMigration.PlainUpgradeCommitsIff` | migrations/env.py:63-74 | on the plain route the upgrade commits iff every CHECK the plan creates admits the rows, and then the target and its ancestors are applied, the target is the single head if all applied was below it, the rows are the same and the CHECK is that of the last replacing revision, validated |
| `AuditMigration.StepDownIsConsistent` | migrations/versions/20260926_16_add_skill_resolution_audit.py:58-78 | undoing a head leaves a validated CHECK all rows satisfy and the same rows, unless it drops the table |
| `AuditMigration.CompleteGuardSuffices` | migrations/versions/20260930_18_merge_skill_status_usage.py:37-46 | a downgrade whose guard is complete fails iff the guard finds a row, whichever branch set the live CHECK |
| `AuditMigration.RunDownIsConsistent` | migrations/versions/20260930_19_merge_skill_resolution_usage.py:30-36 | any downgrade transaction keeps consistency and, without dropping the table, the rows |
| `AuditMigration.RunDownUndoesIff` | migrations/versions/20260926_16_add_skill_resolution_audit.py:58-78 | a downgrade commits iff each undo finds its guards passing, no guarded row and only rows its narrower CHECK admits, and then exactly those revisions are gone and the CHECK is the one the last of them restores |
| `AuditMigration.NextIsConsistent` | migrations/env.py:63-103 | every transaction, committed or rolled back, keeps consistency and all rows unless it drops the table |
| `AuditMigration.EveryRunStaysConsistent` | migrations/env.py:63-103 | over any interleaving of inserts, upgrades and downgrades from the empty database, every state has a validated CHECK its rows satisfy |
| `AuditMigration.RowsAreNeverLost` | migrations/env.py:63-103 | along any run that does not drop the table, earlier rows are a prefix of later rows |
| `RepositoryHistory.VocabularyOf` | migrations/versions/20260930_18_merge_skill_status_usage.py:11-20 | each revision's CHECK admits exactly what was introduced up to it, 20260930_18 lacking its sibling's word |
| `RepositoryHistory.GuardOf` | migrations/versions/20260930_18_merge_skill_status_usage.py:37-44 | each downgrade guard names exactly what the revision introduces, the merges also the sibling's, 20260902_04 nothing |
| `RepositoryHistory.RestoredBy` | migrations/versions/20260930_18_merge_skill_status_usage.py:21-46 | a downgrade restores exactly what was introduced before the revision and is not guarded |
| `RepositoryHistory.HistoryIsSound` | migrations/env.py:38-59 | this repository meets every condition the guarded upgrade relies on, the union being a superset of what its ancestors declare |
| `RepositoryHistory.GuardsAreCompleteExceptOne` | migrations/versions/20260902_04_control_plane_idempotency.py:70-77 | a guard covers what its narrower CHECK loses iff the revision is not 20260902_04 |
| `RepositoryHistory.UpgradeToUnionOrBeyondCommits` | migrations/env.py:21-103 | from any database below a target at or beyond the union head, in any order, the upgrade commits, keeps every row and ends validated on the target |
| `RepositoryHistory.PlainUpgradeFailsOnSiblingRows` | migrations/versions/20260930_18_merge_skill_status_usage.py:32-34 | without deferral an upgrade fails iff 20260930_18 is still to run and a skill resolution was recorded |
| `RepositoryHistory.DowngradeFailsOnlyOnEvidence` | migrations/versions/20260930_19_merge_skill_resolution_usage.py:30-36 | every other downgrade of a head fails iff its guard finds evidence |
| `RepositoryHistory.ControlPlaneDowngradeHasNoGuard` | migrations/versions/20260902_04_control_plane_idempotency.py:70-77 | that downgrade has an empty guard and fails on the scan iff a control-plane row exists |
| `RepositoryHistory.EveryRepositoryRun` | migrations/env.py:63-103 | every run of these migrations keeps rows legal under a validated CHECK, and rows are lost only by dropping the table |
| `RepositoryHistory.TheDeferralIsNeeded` | migrations/env.py:38-42 | a database that recorded a skill resolution before 20260930_18 ran: guarded, the upgrade to the union commits with the row; unguarded, the same plan rolls back |
| `AuditStore.Store.constructor` | migrations/versions/20260822_01_create_minimal_governance_store.py:61 | an empty database |
| `AuditStore.Store.Append` | migrations/versions/20260822_01_create_minimal_governance_store.py:61 | a row is appended, at the end, iff the live CHECK lists its operation; nothing else changes |
| `AuditStore.Store.AddCheck` | migrations/env.py:77-86 | a CHECK is added unscanned iff its text is deferred, otherwise only if every row passes |
| `AuditStore.Store.RunRevisions` | migrations/env.py:88-92 | the in-place run reaches the state of the specified run |
| `AuditStore.Store.MigrateUp` | migrations/env.py:63-103 | the in-place transaction commits exactly as specified; committed, exactly the plan was added to the applied revisions and the CHECK is that of its last replacing revision; rolled back, everything is as before |
| `AuditStore.Store.MigrateDown` | migrations/versions/20260926_16_add_skill_resolution_audit.py:58-78 | the in-place downgrade commits as specified, iff each undo finds its guards passing, no guarded row and only rows its narrower CHECK admits; committed, exactly the undone revisions are gone; rolled back, everything is as before |
| `Workflow.EveryStepIsSafe` | scripts/validate_incident_contracts.py:145-204 | in every run of a well-formed workflow each step joins declared states, leaves no terminal one, closes only from `postmortem`, and a protected step is human-only with a required and recorded approval |
| `Workflow.EveryStepIsApproved` | scripts/validate_incident_contracts.py:145-235 | over the fields of the document: in every run of a well-formed workflow a step into `closed`, or one with the outcome `approve` at a decision point declared blocking, is taken by `human` alone, requires an approval and records one; every step joins declared states, leaves no terminal one, and closes only from `postmortem` |
| `Workflow.RunsEndAtTerminalStates` | scripts/validate_incident_contracts.py:150-154 | nothing follows a terminal state in any run |
| `Workflow.ClosedRunsPassedPostmortem` | scripts/validate_incident_contracts.py:227-235 | a run that closes comes directly from `postmortem` by a recorded human approval |
| `Workflow.EveryStateIsReached` | scripts/validate_incident_contracts.py:215-217 | every declared state ends some run |
| `Workflow.ClosedSetHoldsReachable` | scripts/validate_incident_contracts.py:206-213 | a set holding the start and closed under transitions holds every run's end |
| `Workflow.SmallestWorkflowIsWellFormed` | scripts/validate_incident_contracts.py:96-243 | the conditions can all be met: a four-state definition meets them and one of its runs closes |
| `WorkflowChecker.ReachableStates` | scripts/validate_incident_contracts.py:206-213 | the loop ends and computes exactly the states some run reaches; it raises only on a reachable transition without a target, always if no null target is reachable, and otherwise exactly when its passes come to the missing target first |
| `WorkflowChecker.CheckDeclaredStates` | scripts/validate_incident_contracts.py:106-111 | exactly the undeclared initial and terminal states |
| `WorkflowChecker.CheckDecisionPoints` | scripts/validate_incident_contracts.py:123-130 | exactly the violations of decision points |
| `WorkflowChecker.CheckTransition` | scripts/validate_incident_contracts.py:135-204 | raises iff the decision point is declared null, otherwise exactly the violations of one transition |
| `WorkflowChecker.CheckTransitions` | scripts/validate_incident_contracts.py:132-204 | the same over all transitions, with exactly the duplicate ids |
| `WorkflowChecker.CheckStates` | scripts/validate_incident_contracts.py:113-121 | exactly the states with disagreeing flags, unreachable, or without an objective |
| `WorkflowChecker.CheckRequiredFlow` | scripts/validate_incident_contracts.py:219-235 | exactly the violations of the approved flow |
| `WorkflowChecker.CheckWorkflow` | scripts/validate_incident_contracts.py:96-243 | a report holds exactly the violations, it is empty iff the definition is well-formed, and the checker raises iff a decision point is null or the reachability loop raises |
| `WorkflowChecker.ApprovalReportSays` | scripts/validate_incident_contracts.py:192-204 | each of the three approval errors is reported exactly when some transition into `closed`, or approving at a decision point declared blocking, lacks what it names |
| `WorkflowChecker.DecisionErrorsSay` | scripts/validate_incident_contracts.py:166-190 | over the fields: an undeclared decision point, an outcome it does not list, a decision point of another state |
| `WorkflowChecker.NoViolationIffWellFormed` | scripts/validate_incident_contracts.py:96-243 | no error applies iff the declarative predicate holds |
| `JsonPointer.DecodeIsOnePass` | scripts/validate_incident_queries.py:159 | the two successive replacements equal one left-to-right decode on every string |
| `JsonPointer.EscapeRoundTrip` | scripts/validate_incident_queries.py:159 | decoding undoes escaping, and an escaped token has no separator |
| `JsonPointer.ResolvePointer` | scripts/validate_incident_queries.py:146-170 | the loop answers whether the stepwise walk finds a target, or raises when the walk does; the empty pointer is found, and one that does not start with `/` is not |
| `JsonPointer.WalkFindsIff` | scripts/validate_incident_queries.py:156-170 | the walk finds a value iff a chain of children, each named by its token as a key or as an index, leads from the document to it |
| `JsonPointer.RaisesIff` | scripts/validate_incident_queries.py:164-167 | it raises iff the walk comes to a list with a token that passes for digits and does not convert, being no decimal numeral or too long |
| `JsonPointer.SplitJoined` | scripts/validate_incident_queries.py:158 | splitting a printed pointer gives back the escaped tokens |
| `JsonPointer.PrintedPointerResolves` | scripts/validate_incident_queries.py:146-170 | resolving the printed form of any token list is walking the list, absence and exceptions included |
| `JsonPointer.LenientOnlyOnLooseIndices` | scripts/validate_incident_queries.py:164-167 | a found target is the standard's target iff no list was indexed with a leading zero or with other digits |
| `JsonPointer.LeadingZerosAreAccepted` | scripts/validate_incident_queries.py:164-167 | on every list any number of zeros before an index changes nothing, where the standard refuses it |
| `JsonPointer.ResolveLocalRef` | scripts/validate_run_api.py:456-463 | the simpler resolver finds a target iff its own key-by-key walk does |
| `JsonPointer.SimpleWalkIsWalkThroughMappings` | scripts/validate_run_api.py:456-463 | that walk is the pointer walk restricted to mappings |
| `JsonPointer.ResolversAgreeThroughMappings` | scripts/validate_run_api.py:454-463 | on references without `~` the simpler resolver finds a target iff the pointer does and no list is crossed, and then the same one |
| `SafeProjection.CollectDeclared` | scripts/validate_run_api.py:165-183 | adds exactly the names declared at any depth |
| `SafeProjection.DeclaredIsExactOnPlainDocuments` | scripts/validate_run_api.py:165-183 | on plain documents the collected names are exactly the properties of the schemas at schema positions |
| `JsonSchema.MoreFuelSameVerdict` | scripts/validate_run_api.py:106-107 | a verdict once reached is the same under every larger budget |
| `OpenObjects.PathsNameWhatLooksOpen` | scripts/validate_run_api.py:186-211 | the reported paths are exactly the spelled locations of what looks like an open object |
| `OpenObjects.ReportSays` | scripts/validate_run_api.py:186-211 | a path is in the report iff it spells the way to a mapping typed `object`, or bearing `properties` with no conditional key on the way, whose `additionalProperties` is not `false` |
| `OpenObjects.MappingIsReportedIff` | scripts/validate_run_api.py:196-199 | every mapping is reported at its own path iff it is typed `object`, whatever else it holds, or bears a `properties` mapping, and its `additionalProperties` is not `false` |
| `SchemaPositions.ReportIsWrongIff` | scripts/validate_run_api.py:186-211 | for every document: nothing is reported iff every open schema is untyped below a name `if`, `then` or `else` and nothing that is no schema looks open; a closed document is reported iff something else looks open |
| `SchemaPositions.ReportIsExactOnPlainDocuments` | scripts/validate_run_api.py:186-211 | without names that read as keywords and data that reads as schemas, the report is empty iff every object schema at every schema position rejects unknown fields |
| `SchemaPositions.ConditionalNamesHideOpenSchemas` | scripts/validate_run_api.py:200-207 | under every keyword that maps names, for every name and every schema open only for being untyped, the open document is missed iff the name is `if`, `then` or `else` |
| `SchemaPositions.NamePropertiesIsReported` | scripts/validate_run_api.py:196-199 | under every keyword that maps names, every closed object schema is reported once it is named `properties` |
| `SchemaPositions.DataIsReported` | scripts/validate_run_api.py:200-207 | every closed document with data that would be open as a schema is reported |
| `SafeProjection.AuditSchema` | scripts/validate_run_api.py:232-255 | exactly the findings that apply to one schema |
| `SafeProjection.AuditSchemas` | scripts/validate_run_api.py:222-255 | exactly the overlap and the findings of every listed schema; none iff nothing applies |
| `SafeProjection.CleanAuditMeansSafeSchemas` | scripts/validate_run_api.py:214-255 | nothing is reported iff the lists are disjoint and every schema exists, is closed and declares only registered names as the walks read it; on plain documents, iff every object schema is closed and every property of its schemas is registered and not forbidden |
| `SafeProjection.WalkedSchemasAreAudited` | scripts/validate_run_api.py:172-183 | every schema the walk visits satisfies the policy on its own |
| `SafeProjection.AcceptedInstancesCarryOnlyAllowedKeys` | scripts/validate_run_api.py:214-255 | whatever the other keywords mean, an instance accepted by an audited schema of the fragment has only allowed keys at every depth |
| `SafeProjection.PublicInstancesCarryNothingSensitive` | scripts/validate_run_api.py:214-255 | every instance accepted by a schema that passes, through references into its own or other audited documents, has only allow-listed and no forbidden keys |
| `SafeProjection.UntypedSchemasFailOpen` | scripts/validate_run_api.py:194-199 | every document without object schemas passes under every policy, and without applied keywords accepts whatever its other keywords accept |
| `SafeProjection.UndeclaredKeyIsAcceptedIff` | scripts/validate_run_api.py:186-199 | such a schema, `type: object` without `properties` included, accepts an undeclared key iff its `additionalProperties` is not `false` and its other keywords accept |
| `SafeProjection.ReportedIffUndeclaredKeysPass` | scripts/validate_run_api.py:186-199 | a schema of properties alone that counts as an object is reported iff it accepts an instance with a key it does not declare |
| `Authorization.CheckGrants` | scripts/validate_incident_authorization.py:124-169 | exactly the violations: repeated, undeclared, non-allow or inactive grants, inactive principals and resources; none iff the matrix is well-formed |
| `Authorization.CheckGrantList` | scripts/validate_incident_authorization.py:133-157 | exactly the violations of the grants, repeats included |
| `Authorization.CheckGrant` | scripts/validate_incident_authorization.py:145-157 | exactly the violations of one grant |
| `Authorization.GrantErrorsSay` | scripts/validate_incident_authorization.py:145-157 | field by field: the grant errors over the declared principals, actions and resources |
| `Authorization.MatrixErrorsSay` | scripts/validate_incident_authorization.py:133-167 | field by field: repeated grants, and declared principals and resources whose last entry is not active |
| `Authorization.GrantsViolationFree` | scripts/validate_incident_authorization.py:124-169 | no violation applies iff the matrix is well-formed |
| `Authorization.CheckPrincipals` | scripts/validate_incident_authorization.py:159-161 | exactly the principals of the mapping that are not active |
| `Authorization.CheckResources` | scripts/validate_incident_authorization.py:162-167 | exactly the resources of the mapping that are not active |
| `Authorization.CheckScenarios` | scripts/validate_incident_authorization.py:187-287 | raises iff an active allow grant lacks a field, otherwise exactly the violations; none iff every scenario holds, ids are distinct and one scenario denies the administrative name |
| `Authorization.CheckEntries` | scripts/validate_incident_authorization.py:206-278 | exactly the violations of the scenarios, repeated ids included |
| `Authorization.ScenarioListErrorsSay` | scripts/validate_incident_authorization.py:187-287 | no scenarios, none that denies `admin-human`, a repeated id |
| `Authorization.ScenariosViolationFree` | scripts/validate_incident_authorization.py:187-287 | no violation applies iff the scenarios are well-formed |
| `Authorization.CheckScenario` | scripts/validate_incident_authorization.py:207-278 | exactly the violations of one scenario, with its repeat |
| `Authorization.CheckVerdict` | scripts/validate_incident_authorization.py:248-278 | exactly the violations of the stated decision and cause |
| `Authorization.VerdictErrorsSay` | scripts/validate_incident_authorization.py:248-278 | field by field: an allow is an error iff no such grant is listed or it names a cause, a denial iff one is listed or its cause is outside the taxonomy |
| `Authorization.CauseErrorSays` | scripts/validate_incident_authorization.py:236-265 | a denial is an error iff its cause is not the one the entries give: inactive principal, missing resource, inactive resource, no such grant |
| `Authorization.ExpectedCauseIsTheEngines` | scripts/validate_incident_authorization.py:236-246 | the cause the check computes is the engine's |
| `Authorization.AcceptedScenarioMatchesEngineIff` | scripts/validate_incident_authorization.py:248-265 | an accepted denial states the engine's decision and cause; an accepted allow does iff principal and resource are active |
| `Authorization.BothChecksForceTheEngine` | scripts/validate_incident_authorization.py:124-287 | with both checks clean every scenario states exactly the engine's decision and cause |
| `Authorization.CleanScenariosSay` | scripts/validate_incident_authorization.py:124-287 | with both checks clean an evaluated scenario is an allow iff a grant with its four fields is listed as an active allow, and a denial names exactly what is missing |
| `Authorization.ScenarioCheckAloneIsNotEnough` | scripts/validate_incident_authorization.py:248-252 | a scenario accepted alone although the engine denies it |
| `Authorization.OnlyTheGrantDecides` | src/sre_agent/governance/authorization.py:65-113 | under a clean grant check the engine allows iff an exact active grant exists |
| `Authorization.EngineDecides` | src/sre_agent/governance/authorization.py:65-113 | the engine allows iff the principal is active, the resource is active and a listed grant has this principal, action, resource type and resource id, effect `allow` and status `active`; otherwise each denial cause exactly in its order |
| `Authorization.AdministrativeNameIsDeniedEverything` | scripts/validate_incident_authorization.py:172-184 | under a clean grant check the names check is clean iff `admin-human` is denied every action on every resource |
| `AccountBootstrap.Account.Clear` | scripts/bootstrap_otel_account.py:149-173 | passes iff the identity call succeeds usably and the three validations succeed; otherwise the run stops without touching keys |
| `AccountBootstrap.Account.ValidateAll` | scripts/bootstrap_otel_account.py:163-173 | the loop validates the templates in order and passes iff every validation succeeds |
| `AccountBootstrap.Account.DeployAll` | scripts/bootstrap_otel_account.py:174-191 | the loop deploys the stacks in order and passes iff every deployment succeeds |
| `AccountBootstrap.Account.Prepare` | scripts/bootstrap_otel_account.py:174-234 | passes iff the deployments and the description succeed and the listing reads as empty, right after which it continues; then no tool key lives unless the answer lacked its list |
| `AccountBootstrap.Account.AskKeys` | scripts/bootstrap_otel_account.py:215-234 | a listing reads as empty when it is, or when the answer lacks the list, and it is recorded whether that hid a live key |
| `AccountBootstrap.Account.Create` | scripts/bootstrap_otel_account.py:236-249 | a key exists whenever the call took effect, answered or not |
| `AccountBootstrap.Account.Delete` | scripts/bootstrap_otel_account.py:275-288 | a confirmed deletion leaves no such key |
| `AccountBootstrap.Account.Write` | scripts/bootstrap_otel_account.py:56-87 | a section there at the read is never overwritten; a failed write leaves the section as it was or as an editor left it in between; a written one replaces such an edit |
| `AccountBootstrap.Account.Provide` | scripts/bootstrap_otel_account.py:236-292 | the exact outcome by the weather of the creation and the deletion and by the write; a lacking secret or a failed write is followed by the deletion of the new key; `created` means the section holds the new live key, and the removal error means no key was added |
| `AccountBootstrap.Account.Bootstrap` | scripts/bootstrap_otel_account.py:118-338 | the exact outcome: already configured iff a section exists and its identity check passes; if all calls before the creation go well, the outcome of creating, writing and deleting, the trace ending in the deletion of the new key iff its secret lacks or the write failed; otherwise refused or crashed; in fair weather on a fresh account, created with the section written. Under any faults: at most one tool key unless a listing hid a live one, an existing section untouched, and every mutating call after the identity check and three validations |
| `AccountBootstrap.Account.Deploy` | scripts/bootstrap_otel_account.py:149-292 | the same for a run without a section, whose calls follow the fixed order |
| `AccountBootstrap.ScriptedIsDisciplined` | scripts/bootstrap_otel_account.py:149-249 | following the fixed order of calls, each check passed, puts every mutating call after the identity check and the three validations, and key creation directly after a listing that read as empty |
| `AccountBootstrap.Account.Campaign` | scripts/bootstrap_otel_account.py:295-338 | over any sequence of runs and interference at most one tool key unless a listing hid a live one; if nobody edits the section, an existing one stays and at most one run ever reports a key, whose section is the final one |
| `BootstrapLock.StepIsExclusive` | scripts/bootstrap_otel_account.py:324-338 | every interleaved step keeps at most one process inside |
| `BootstrapLock.StepKeepsOneKey` | scripts/bootstrap_otel_account.py:215-292 | every step but a misleading listing keeps at most one tool key, alive or on its way, and what the process inside learned true |
| `BootstrapLock.LockedRunsCreateAtMostOneKey` | scripts/bootstrap_otel_account.py:324-338 | for any processes, interleaving, faults, deaths and commands that outlive them: one process inside, and at most one tool key unless a listing showed none while one lived or was on its way |
| `BootstrapLock.SecondKeyIff` | scripts/bootstrap_otel_account.py:215-249 | before any listing of a locked run: what follows can leave two tool keys iff that listing shows none while one lives or is on its way |
| `BootstrapLock.LockedRunsKeepSections` | scripts/bootstrap_otel_account.py:56-87 | with the lock and no outside edit between a read and its replacement, no step of the tool drops or changes any section, in every interleaving |
| `BootstrapLock.EditInWindowSurvivesIff` | scripts/bootstrap_otel_account.py:59-83 | the replacement leaves the edited file with the profile section put in iff the edit added, changed and removed no other section; exactly which sections of the edited file it loses |
| `BootstrapLock.UndisturbedRunConfigures` | scripts/bootstrap_otel_account.py:215-292 | from any free state without section or key, an undisturbed process writes the section with the one new key; if its write fails and the deletion takes effect, no key and no section is left; the lock is free again |
| `BootstrapLock.WithoutTheLockASectionIsOverwritten` | scripts/bootstrap_otel_account.py:59-83 | without the lock, of any two processes holding keys one overwrites the section the other wrote |
| `BootstrapLock.WithoutTheLockTwoKeysAppear` | scripts/bootstrap_otel_account.py:305-338 | without the lock any two processes can create two keys |
| `ChatOutbox.DispatchKeysAreInjective` | migrations/versions/20261030_02_add_chat_outbox.py:52-58 | dispatch keys identify phase and run, and never meet a proposal's key |
| `ChatOutbox.ProposalKeysCollideIff` | migrations/versions/20261030_07_queue_chat_decisions.py:23-25 | two different proposals share a key iff one run id goes on after the other with a colon and some text, and the mitigations are shifted by it |
| `ChatOutbox.RunIdsAreCollisionFreeIff` | migrations/versions/20261030_07_queue_chat_decisions.py:23-25 | a set of run ids is collision-free for all mitigations iff none goes on after another with a colon |
| `ChatOutbox.ProposalKeysAreInjective` | agent/schemas/incident-snapshot.schema.yaml:24-26 | for run ids of the shape the schemas demand, proposal keys identify run and mitigation |
| `ChatOutbox.EnqueueReachesEveryLink` | migrations/versions/20261030_02_add_chat_outbox.py:57-62 | the insert appends only this notice's rows, keeps keys unique, and leaves exactly the linked chats holding the key |
| `ChatOutbox.QueuedRowsSay` | migrations/versions/20261030_02_add_chat_outbox.py:52-62 | word for word, what a queued row holds for a linked chat: kind, key and body |
| `ChatOutbox.ExecuteAllDispatch` | migrations/versions/20261030_02_add_chat_outbox.py:49-68 | over a transaction's statements a chat gains a dispatch key iff it is linked and such a receipt is inserted |
| `ChatOutbox.DispatchRowsSay` | migrations/versions/20261030_02_add_chat_outbox.py:49-68 | every row the immediate trigger queues tells a linked chat about a receipt of the transaction, intent as acknowledgment and outcome as conclusion |
| `ChatOutbox.CommitAsks` | migrations/versions/20261030_07_queue_chat_decisions.py:17-41 | the deferred trigger appends only decision rows carrying the version then in force |
| `ChatOutbox.CommitAsksExactly` | migrations/versions/20261030_07_queue_chat_decisions.py:17-41 | at commit, for run ids of the schemas' shape, a chat comes to hold the decision message of a run and mitigation iff it is linked and the transaction proposed them |
| `ChatOutbox.CommitFailsIff` | migrations/versions/20261030_07_queue_chat_decisions.py:17-41 | a transaction fails iff some chat is linked and a proposal names no mitigation |
| `ChatOutbox.DecisionRowsSay` | migrations/versions/20261030_07_queue_chat_decisions.py:17-41 | every row the deferred trigger queues asks a linked chat, under its own code and principal, about a proposal of the transaction at the version in force |
| `ChatOutbox.DecisionsCarryTheCommittedVersion` | migrations/versions/20261030_07_queue_chat_decisions.py:12-41 | decision rows carry the committed incident version and follow every dispatch row of the transaction |
| `ChatOutbox.VersionsAdvance` | migrations/versions/20261030_07_queue_chat_decisions.py:17-41 | the committed version of an incident is the one before, moved up once per advance |
| `ChatOutbox.ExactlyTheLinkedChatsAreNotified` | migrations/versions/20261030_02_add_chat_outbox.py:27-68 | over every history of links, unlinks and transactions a chat holds a run's message iff a committed receipt of that phase found it linked, and never twice |
| `ChatOutbox.ExactlyTheLinkedChatsAreAsked` | migrations/versions/20261030_07_queue_chat_decisions.py:12-41 | over every history a chat holds the decision message of a run and mitigation iff a committed proposal of them found it linked, for run ids of the schemas' shape |
| `ChatOutbox.LinksFollow` | migrations/versions/20261030_02_add_chat_outbox.py:57-62 | a chat is linked iff it was linked and not unlinked; linking and unlinking queue nothing |
| `ChatOutbox.Store.Insert` | migrations/versions/20261030_02_add_chat_outbox.py:57-62 | the loop over the links appends exactly the specified rows |
| `ChatOutbox.Store.Run` | migrations/versions/20261030_07_queue_chat_decisions.py:17-41 | a transaction commits exactly when specified and otherwise restores everything |
| `ChatDecisions.TapKeysAreInjective` | src/sre_agent/chat/decisions.py:65 | each button has its own idempotency key |
| `ChatDecisions.NextIsConsistent` | src/sre_agent/chat/taps.py:41-140 | every tap, retry, claim, expired claim, command, refusal, recorded outcome, death, console decision or other transition keeps one row per button, one decision per version and truthful outcomes |
| `ChatDecisions.AtMostOneDecisionPerVersion` | migrations/versions/20261102_02_queue_chat_taps.py:20-41 | over any run, several workers on one tap included, at most one decision applies per incident version and per key, at most one row exists per button, and a row that says decided did decide |
| `ChatDecisions.OutcomeIsExactWithoutRefusals` | src/sre_agent/chat/taps.py:97-140 | over any run in which no guard refuses a worker, a done tap says decided iff its command decided, whoever wrote last |
| `ChatDecisions.RefusedReplayHidesTheDecision` | src/sre_agent/chat/taps.py:97-140 | from any state where a tap can decide, a second worker refused by a guard and writing last leaves the row refused although the decision stands |
| `ChatDecisions.RivalsAreStale` | src/sre_agent/persistence/incidents.py:442-463 | once one button decided, no other command on that version or with that key decides, whatever the guards say, and the same one is answered its first result |
| `TapOutcomes.PressSays` | src/sre_agent/chat/taps.py:41-66 | a press gives a new button its row, sets one answered with an error waiting again from the start, and leaves any other as it is |
| `TapOutcomes.DecideSays` | src/sre_agent/persistence/incidents.py:442-463 | a command applies, and moves the version up by one, iff it is not refused, its key decided nothing for the incident and the version is the one reviewed; what is answered otherwise |
| `TapOutcomes.PressDecides` | src/sre_agent/chat/taps.py:41-140 | from every orderly state where the message shows the incident's version, the key decided nothing and the row can be sent, a press and one undisturbed worker pass apply exactly this choice on this version and answer 202 |
| `TapOutcomes.FirstPressDecides` | src/sre_agent/chat/taps.py:41-140 | from the start: asking, pressing and one pass decide |
| `TapOutcomes.ExhaustedTapIsStuck` | src/sre_agent/chat/taps.py:88-103 | a row whose five claims died without an outcome stays so over every run, however often its button is pressed |
| `TapOutcomes.OutcomeIsExactWithoutExpiry` | src/sre_agent/chat/taps.py:41-140 | over any run in which no claim expires and the console uses its own keys, no two workers hold the same tap and a done tap says decided iff its command decided, whatever the guards refused |
| `WorktreePorts.EveryBlockIsVisitedOnce` | scripts/bootstrap-worktree.py:104-107 | for every identity the search visits each of the 10000 aligned blocks exactly once |
| `WorktreePorts.AllocatePorts` | scripts/bootstrap-worktree.py:104-113 | the first free block in cyclic order, three consecutive ports from 20000 on that Docker does not publish and the host does not refuse; nothing iff no block is free |
| `WorktreePorts.BlocksAreEqualOrDisjoint` | scripts/bootstrap-worktree.py:104-108 | blocks of any two worktrees are equal or disjoint |
| `WorktreePorts.ValidatePorts` | scripts/bootstrap-worktree.py:79-101 | accepts iff ports are distinct, in range and without a known collision, and tells whether every check was authoritative |
| `WorktreePorts.AcceptableSays` | scripts/bootstrap-worktree.py:79-101 | ports are accepted iff they differ, are from 1 to 65535, are not published by another container, and are held on the host by the project's own containers at most |
| `WorktreePorts.AllocatedBlocksAreAccepted` | scripts/bootstrap-worktree.py:79-113 | an allocated block always validates under the same availability |
| `WorktreeNames.GeneratedNamesAreReusable` | scripts/bootstrap-worktree.py:33-35 | for every directory name the generated project name matches the reuse pattern |
| `WorktreeNames.ProjectNameSays` | scripts/bootstrap-worktree.py:33-35 | the name is the directory's words, its maximal runs of letters and digits, with single hyphens between them, or `sre-agent` without any, cut to 36 characters, then `-wt-` and the identity |
| `WorktreeEnvironment.ReadEnvironment` | scripts/bootstrap-worktree.py:116-123 | the loop computes the fold of the lines |
| `WorktreeEnvironment.LastBindingWins` | scripts/bootstrap-worktree.py:116-123 | a key is bound to what the last line of the form blanks, key, `=`, value, blanks says, comments aside |
| `WorktreeEnvironment.UnboundStays` | scripts/bootstrap-worktree.py:116-123 | lines that do not bind a key leave it as it was |
| `WorktreeEnvironment.SplitFirstLine` | scripts/bootstrap-worktree.py:118 | a line ends at any boundary, a carriage return taking the line feed after it along |
| `WorktreeEnvironment.EnvironmentRoundTrip` | scripts/bootstrap-worktree.py:116-135 | reading the rendered file back yields exactly the five bindings |
| `WorktreeEnvironment.OwnFileIsReused` | scripts/bootstrap-worktree.py:169-182 | the written file is read back with its own name and ports |
| `WorktreeEnvironment.ReuseSays` | scripts/bootstrap-worktree.py:169-183 | for every file: it is foreign iff its `WORKTREE_ID` is missing or another; it is reused with a name and ports iff it holds them under this id, as numerals that convert, and the name matches the pattern |
| `WorktreeEnvironment.InvalidSays` | scripts/bootstrap-worktree.py:175-180 | this worktree's file is invalid iff a port is not all digits or the name is missing or off the pattern |
| `WorktreeEnvironment.BootstrapWorktree` | scripts/bootstrap-worktree.py:146-209 | without a file: the first free block is written, or nothing iff none is free; with one: foreign, malformed, unconvertible, refused or reused exactly as the file and the host say, the file untouched |
| `WorktreeEnvironment.RunTwice` | scripts/bootstrap-worktree.py:169-209 | a second run reuses exactly what the first configured iff the host by then has no known collision on those ports |
| `WorktreeEnvironment.OwnRunningPortsAreAcceptedIff` | scripts/bootstrap-worktree.py:79-101 | while its own containers hold the ports, a rerun accepts them iff Docker answers, lists them as the project's and none as another's |
| `Affordability.WorstCaseCoversEveryEndpoint` | src/sre_agent/gateway/endpoint_catalog.py:68-87 | the combined endpoint covers every listed one, and its window, prompt capacity and cap are attained |
| `Affordability.AffordableOutputTokens` | src/sre_agent/gateway/consumption_affordability.py:198-209 | the binary search finds the largest affordable count |
| `Affordability.CalculateAffordability` | src/sre_agent/gateway/consumption_affordability.py:48-118 | the largest positive cap every limit leaves room for; denied iff values are unusable or not one output token fits |
| `Affordability.AdmittedCapIsUnique` | src/sre_agent/gateway/consumption_affordability.py:75-110 | at most one cap is admitted |
| `Affordability.AdmittedCapSays` | src/sre_agent/gateway/consumption_affordability.py:48-118 | in plain figures: the counts up to an admitted cap are exactly those that, beside the whole input, are within the endpoint's caps and window, the incident's tokens and the month's money |
| `Affordability.DeniedSays` | src/sre_agent/gateway/consumption_affordability.py:48-118 | a call is denied iff a figure is improper or one output token is over a limit |
| `Affordability.AdmittedCallsFitIff` | scripts/fake_openrouter.py:177-182 | for every balance an admitted call passes every endpoint's strict test iff nothing is on offer or every known window holds the text with the whole offer |
| `Affordability.WindowedEndpointsAcceptAdmittedCalls` | scripts/fake_openrouter.py:177-182 | with every window listed and no smaller prompt capacity no admitted call is rejected |
| `Affordability.AdmittedCallsCanBeRejected` | src/sre_agent/gateway/endpoint_catalog.py:68-81 | two catalogs where an admitted call is rejected |
| `Affordability.RefusedExactlyAtTheInputBound` | scripts/consumption_limits_e2e.py:203-245 | with room at the endpoints, refused iff the balance is at most the input bound, else the cap is the smallest of the three bounds |
| `Affordability.BillStaysWithinExposure` | src/sre_agent/gateway/consumption_admission.py:142-147 | whichever endpoint serves, tokens within bound and cap cost at most the reserved exposure, itself within the monthly balance |
| `ConsumptionLedger.AdmissionService.Admit` | src/sre_agent/gateway/consumption_admission.py:43-177 | a reservation is appended iff a limited call is admitted with its cap; every refusal reason exactly as specified |
| `ConsumptionLedger.RefusalSays` | src/sre_agent/gateway/consumption_admission.py:67-208 | over the policy's two limits, the endpoint and the books: which calls are refused, with which reason |
| `ConsumptionLedger.AdmissionHappensIff` | src/sre_agent/gateway/consumption_admission.py:67-177 | unlimited iff both limits are absent; admitted iff otherwise nothing refuses the call and its id is new; nothing else changes the books |
| `ConsumptionLedger.AdmittedRowSays` | src/sre_agent/gateway/consumption_admission.py:142-177 | an admission adds one open row, holding the whole input and the cap under an incident limit and their cost under a monthly one |
| `ConsumptionLedger.AdmittedCapIsLargest` | src/sre_agent/gateway/consumption_admission.py:120-147 | its cap is the largest within every limit less what the books count |
| `ConsumptionLedger.AppendedRowCounts` | src/sre_agent/gateway/consumption_admission.py:210-237 | a row adds to its own incident and month the settled figure, or while open the reserved one, and to no other |
| `ConsumptionLedger.AppendedBillCounts` | src/sre_agent/gateway/consumption_admission.py:239-291 | an audited bill adds its amount to its own month unless a reservation of its request knows a cost |
| `ConsumptionLedger.AdmissionService.Settle` | src/sre_agent/gateway/consumption_admission.py:179-195 | only an open reservation changes, once; a settled one is left alone before the figures are looked at |
| `ConsumptionLedger.SettlementSays` | src/sre_agent/gateway/consumption_admission.py:179-195 | the open row of the id becomes settled with these figures and all else stays; already settled and negative figures change nothing |
| `ConsumptionLedger.StepKeepsIncidentLimit` | src/sre_agent/gateway/consumption_admission.py:210-223 | every event keeps each incident's monthly tokens within the limit |
| `ConsumptionLedger.StepKeepsMonthLimit` | src/sre_agent/gateway/consumption_admission.py:225-237 | every event keeps each month's reserved, settled and audited spend within the limit, when bills are within exposure and a bill audited after a settlement without a cost is none, as both come from one consumption record |
| `ConsumptionLedger.LateBillStaysWithinIff` | src/sre_agent/gateway/consumption_admission.py:267-291 | a bill no reservation accounts for stays within the limit iff its month has room for it |
| `ConsumptionLedger.NullSettlementMoves` | src/sre_agent/gateway/consumption_admission.py:267-291 | settling without a cost moves a request's spend from its reservation's month to the months of its audited bills, and changes nothing else |
| `ConsumptionLedger.IncidentLimitHoldsOverRuns` | scripts/consumption_limits_e2e.py:128-137 | over any run with policies at or under a limit and bills within exposure, reserved-or-settled tokens never exceed it |
| `ConsumptionLedger.MonthLimitHoldsOverRuns` | src/sre_agent/gateway/consumption_admission.py:225-291 | over any run with bills within exposure, the month's reservations plus the audited spend outside them never exceed the limit |
| `ConsumptionLedger.RefusalNamesTheIncidentIff` | src/sre_agent/gateway/consumption_admission.py:197-208 | under both limits, for all books and calls denied on affordability, the incident is named iff the month has money left, else the month |
| `ConsumptionLedger.RefusalNamesTheWrongLimitIff` | src/sre_agent/gateway/consumption_admission.py:197-208 | for all books and calls, the named limit is not the short one iff both limits bound the call, the endpoint has room, and either the month has money and the incident room, or the month is spent to the cent, the incident has no room and the call costs nothing |
| `ConsumptionLedger.EitherLimitCanBeNamedWrongly` | src/sre_agent/gateway/consumption_admission.py:197-208 | both ways occur |
| `FaultController.Database.Disturb` | scripts/control_issue25_query_fault.py:75-94 | the rename is attempted iff the checks before it passed, what any fault then leaves, and what the browser finds |
| `FaultController.Database.PutBack` | scripts/control_issue25_query_fault.py:95-110 | the cleanup succeeds only with the original name alone present |
| `FaultController.Database.Control` | scripts/control_issue25_query_fault.py:72-111 | returns normally iff nothing went wrong, and then the browser found the table renamed and the original name alone is present, with nothing on its way and no marker |
| `FaultController.AbandonedTableIsNeverRepaired` | scripts/control_issue25_query_fault.py:80-81 | a table left under the fault name stays there in all later runs |
| `FaultController.RunsRestoreIff` | scripts/control_issue25_query_fault.py:74-111 | after any number of runs, once all their statements landed, the original is in place iff every rename that takes effect does so before the cleanup looks and that cleanup acts |

## Left out

- The other audit constraints (reason codes, actions, denial causes, correlation) and the tables the revisions create; guards on them are a parameter of the downgrade step.
- Alembic, PostgreSQL and their locking: a plan is any dependency-respecting order, a transaction is atomic, and concurrent transactions are not interleaved.
- The order and the wording of the messages the checkers report: reports are compared as sets of typed findings.
- YAML values of other types than the contract's (a number as a name, an unhashable outcome).
- SafeProjection.PublicInstancesCarryNothingSensitive: holds on the fragment of typed objects without `patternProperties`, arrays (possibly among scalar types) with `items` and any `prefixItems`, scalars, enumerations of scalars, `$ref` by local pointer or whole registered document, `oneOf` and `anyOf`, each with any keywords that only reject more; one direction only, since a schema can reject sensitive keys without being closed. A nested `$id`, which would change what a local pointer starts from, is outside it.
- SafeProjection.AuditSchemas: the comparison with the sensitive context endpoint at scripts/validate_run_api.py:257-272 is a finite comparison of two policy entries.
- Evaluation of a schema is bounded by a nesting budget that every statement quantifies over; a schema that refers to itself without consuming the instance has no verdict.
- SchemaPositions.ReportIsExactOnPlainDocuments: below a conditional fragment every nested schema counts as conditional, as in the code and as the listed schemas use it; a boolean schema `true` is no object schema.
- Which characters are digits is a parameter of the pointer and environment models; the code does no percent-decoding, and there is none here.
- `check_vocabulary`, `check_command_mapping`, fixtures, OpenAPI coverage and process stages: finite comparisons over files.
- AccountBootstrap.Account.Prepare: a list in the answer to a key listing is truthful; eventual consistency of the remote service is not modelled.
- AccountBootstrap.Account.Bootstrap: a call in flight at a crash takes effect at once or never; calls that outlive their process are modelled in `BootstrapLock`.
- AccountBootstrap.Account.Write: permissions and the temporary file are not modelled.
- The chat outbox is modelled as of revisions 20261030_02 and 20261030_07; the event policy of 20261030_08, the edits of 20261102_01, sending and retrying messages, and link codes are not.
- ChatDecisions.RivalsAreStale: which guard refuses, when a claim expires, and the fresh proposal queued after a stale tap, are not modelled; a refusal is any error status.
- WorktreePorts.AllocatedBlocksAreAccepted: the probe answers alike in both calls.
- WorktreeEnvironment.BootstrapWorktree: lower-casing, hashing and the file system are parameters; port overrides on the command line are left out.
- ConsumptionLedger.AdmissionService.Admit: fetching and freshness of the catalog, clocks and advisory locks are left out, admissions being serialised by those locks; the exposure is exact, where the code adds it at default decimal precision.
- ConsumptionLedger.IncidentLimitHoldsOverRuns: balances are per calendar month, as admission computes them; the end-to-end script sums an incident over all months, which is the same within one.
- ConsumptionLedger.MonthLimitHoldsOverRuns: each request is audited once; a bill that falls into a later month than its reservation, or comes after a settlement without a cost, is within the statement only while the reservation accounts for it or the bill is none; `LateBillStaysWithinIff` says when it passes otherwise.
- FaultController.Database.Control: a statement on its way lands before the next run; renaming is the only change the database makes; another client's changes are one arbitrary state seen by the cleanup.
- The incident runtime, the control service, end-to-end drivers, scripted stand-ins, provisioning and the user interface.
