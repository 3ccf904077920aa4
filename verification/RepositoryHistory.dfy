/** The revisions under `migrations/versions`, their operation CHECKs and downgrade guards, and
the proof that this history meets everything the guarded upgrade relies on. */
module RepositoryHistory {
  import opened AuditOperations
  import opened RevisionGraph
  import opened AuditMigration

  // ------------------------------------------------------------------ the CHECK texts

  const GOVERNANCE: Check :=
    [AuditAccept, AuditExport, AuditProject, AuditRedact, CredentialsAuthenticate, ResponsesCreate]
  const CONTROL_REST: Check := [
    PrincipalsGet, PrincipalsList, PrincipalsStatusReplace,
    CredentialsIssue, CredentialsList, CredentialsRevoke, CredentialsRotate]
  const GRANT_OPERATIONS: Check := [GrantsCreate, GrantsList, GrantsRevoke]
  const ALIAS_OPERATIONS: Check := [AliasesCreate, AliasesList, AliasesGet]
  const ALIAS_MUTATION_OPERATIONS: Check := [AliasesAssignmentReplace, AliasesStatusReplace]
  const CATALOG_OPERATIONS: Check := [CatalogCreate, CatalogList, CatalogRead]
  const MCP_OPERATIONS: Check := [McpDiscovery, McpInvoke]

  const CONTROL_PLANE: Check := GOVERNANCE + [PrincipalsCreate] + CONTROL_REST
  const GRANTS: Check := CONTROL_PLANE + GRANT_OPERATIONS
  const ALIASES: Check := GRANTS + ALIAS_OPERATIONS
  const ALIAS_MUTATIONS: Check := ALIASES + ALIAS_MUTATION_OPERATIONS
  const CATALOG: Check := ALIAS_MUTATIONS + CATALOG_OPERATIONS
  const MCP: Check := CATALOG + MCP_OPERATIONS

  /** The operations of `MCP`, in the order 20260926_14 and 20260929_16 write them. */
  const MCP_REORDERED: Check :=
    GOVERNANCE + [PrincipalsCreate] + MCP_OPERATIONS + CONTROL_REST + GRANT_OPERATIONS
    + ALIAS_OPERATIONS + ALIAS_MUTATION_OPERATIONS + CATALOG_OPERATIONS
  const USAGE: Check := MCP_REORDERED + [UsageRead]
  const BOK: Check := USAGE + [BokSearch, BokRead]
  const MERGED: Check := MCP + [UsageRead, BokSearch, BokRead]
  const SKILL_STATUS: Check := MERGED + [CatalogStatusReplace]
  const SKILL_RESOLUTION: Check := SKILL_STATUS + [SkillsResolve]
  const SKILL_USAGE: Check := MCP + [UsageRead, CatalogStatusReplace, BokSearch, BokRead]
  const CONSUMPTION_READ: Check := SKILL_RESOLUTION + [ConsumptionLimitsGet]
  const UNION: Check := CONSUMPTION_READ + [ConsumptionLimitsReplace]
  const MITIGATION: Check := UNION + [MitigationExecute]

  // ------------------------------------------------------------------ the revisions

  const R20260902_04: RevisionId := 3
  const R20260926_14: RevisionId := 15
  const R20260929_16: RevisionId := 17
  const R20260926_15: RevisionId := 19
  const R20260926_16: RevisionId := 20
  const R20260930_18: RevisionId := 21
  const R20260930_19: RevisionId := 22
  const R20261001_01: RevisionId := 23
  const R20261001_02: RevisionId := 24

  /** Positions of the revisions, in dependency order:

       0 20260822_01   1 20260825_02   2 20260901_03   3 20260902_04   4 20260907_05   5 20260907_06
       6 20260910_07   7 20260916_08   8 20260917_09   9 20260918_10  10 20260918_11  11 20260921_12
      12 20260921_13  13 20260922_12  14 20260924_14  15 20260926_14  16 20260929_15  17 20260929_16
      18 20260930_20  19 20260926_15  20 20260926_16  21 20260930_18  22 20260930_19  23 20261001_01
      24 20261001_02  25 20260929_17  26 20260929_18  27 20260923_13  28 20260928_14  29 20261006_01
      30 20261007_01  31 20261009_01  32 20261018_01  33 20261030_01  34 20261030_02  35 20261030_03
      36 20261030_04  37 20261026_01  38 20261031_01  39 20261030_05  40 20261030_06  41 20261030_07
      42 20261030_08  43 20261102_01  44 20261102_02  45 20261103_01

      Most build on the one before; the others are listed. */
  function ParentsAt(r: nat): set<RevisionId> {
    if r == 0 then {}
    else if r == 15 then {13}
    else if r == 16 then {14, 15}
    else if r == 21 then {19}
    else if r == 22 then {20, 21}
    else if r == 28 then {26}
    else if r == 29 then {27}
    else if r == 30 then {28, 29}
    else {r - 1}
  }

  /** What each revision does to the operation CHECK: created text, restored text, guard. */
  function EditAt(r: nat): CheckEdit {
    if r == 0 then CreatesTable(GOVERNANCE)
    else if r == 3 then Replaces(CONTROL_PLANE, GOVERNANCE, {})
    else if r == 7 then Replaces(GRANTS, CONTROL_PLANE, {GrantsCreate, GrantsList, GrantsRevoke})
    else if r == 8 then Replaces(ALIASES, GRANTS, {AliasesCreate, AliasesList, AliasesGet})
    else if r == 9 then Replaces(ALIAS_MUTATIONS, ALIASES, {AliasesAssignmentReplace, AliasesStatusReplace})
    else if r == 10 then Replaces(CATALOG, ALIAS_MUTATIONS, {CatalogCreate, CatalogList, CatalogRead})
    else if r == 12 then Replaces(MCP, CATALOG, {McpDiscovery, McpInvoke})
    else if r == 15 then Replaces(USAGE, MCP_REORDERED, {UsageRead})
    else if r == 17 then Replaces(BOK, USAGE, {BokSearch, BokRead})
    else if r == 19 then Replaces(SKILL_STATUS, MERGED, {CatalogStatusReplace})
    else if r == 20 then Replaces(SKILL_RESOLUTION, SKILL_STATUS, {SkillsResolve})
    else if r == 21 then Replaces(SKILL_USAGE, MERGED, {CatalogStatusReplace, SkillsResolve})
    else if r == 22 then Replaces(SKILL_RESOLUTION, SKILL_STATUS, {SkillsResolve})
    else if r == 23 then Replaces(CONSUMPTION_READ, SKILL_RESOLUTION, {ConsumptionLimitsGet})
    else if r == 24 then Replaces(UNION, CONSUMPTION_READ, {ConsumptionLimitsReplace})
    else if r == 38 then Replaces(MITIGATION, UNION, {MitigationExecute})
    else Keeps
  }

  function RevisionAt(r: nat): Revision<CheckEdit> {
    Revision(ParentsAt(r), EditAt(r))
  }

  const REVISIONS: AuditHistory := seq(46, r requires 0 <= r => RevisionAt(r))

  /** `UNION_HEAD` and the revisions whose CHECK texts `env.py` collects. */
  const INTEGRATION := Integration(R20261001_02, {
    R20260926_14, R20260926_15, R20260926_16, R20260929_16,
    R20260930_18, R20260930_19, R20261001_01, R20261001_02})

  // ------------------------------------------------------------------ its shape

  lemma HistoryIsWellOrdered()
    ensures WellOrdered(REVISIONS) && OneTable(REVISIONS)
  {
  }

  /** Apart from three sibling revisions, everything later builds on each revision. */
  lemma BottlenecksOfTheHistory(r: RevisionId)
    requires r < |REVISIONS| && r !in {14, 20, 27, 28, 29}
    ensures Bottleneck(REVISIONS, r)
  {
    HistoryIsWellOrdered();
    forall c | r < c < |REVISIONS|
      ensures BuildsOnOrAfter(REVISIONS, c, r)
    {
      assert c - 1 in REVISIONS[c].parents || c in {15, 21, 28, 29};
      var p := if c - 1 in REVISIONS[c].parents then c - 1 else c - 2;
      assert p in REVISIONS[c].parents && r <= p;
    }
  }

  lemma LaterRevisionsDescend(r: RevisionId, q: RevisionId)
    requires r <= q < |REVISIONS| && r !in {14, 27, 28, 29} && !(r == 20 && q == 21)
    ensures WellOrdered(REVISIONS) && r in Ancestors(REVISIONS, q)
  {
    HistoryIsWellOrdered();
    if r == 20 {
      if q != 20 {
        BottlenecksOfTheHistory(22);
        BottleneckIsAncestor(REVISIONS, 22, q);
        ParentIsAncestor(REVISIONS, 20, 22);
        AncestorsAreTransitive(REVISIONS, 20, 22, q);
      }
    } else {
      BottlenecksOfTheHistory(r);
      BottleneckIsAncestor(REVISIONS, r, q);
    }
  }

  // ------------------------------------------------------------------ its vocabularies

  /** The revision that introduces an operation. */
  function IntroducedBy(op: Operation): RevisionId {
    match op
    case AuditAccept => 0 case AuditExport => 0 case AuditProject => 0 case AuditRedact => 0
    case CredentialsAuthenticate => 0 case ResponsesCreate => 0
    case PrincipalsCreate => 3 case PrincipalsGet => 3 case PrincipalsList => 3
    case PrincipalsStatusReplace => 3 case CredentialsIssue => 3 case CredentialsList => 3
    case CredentialsRevoke => 3 case CredentialsRotate => 3
    case GrantsCreate => 7 case GrantsList => 7 case GrantsRevoke => 7
    case AliasesCreate => 8 case AliasesList => 8 case AliasesGet => 8
    case AliasesAssignmentReplace => 9 case AliasesStatusReplace => 9
    case CatalogCreate => 10 case CatalogList => 10 case CatalogRead => 10
    case McpDiscovery => 12 case McpInvoke => 12
    case UsageRead => 15
    case BokSearch => 17 case BokRead => 17
    case CatalogStatusReplace => 19
    case SkillsResolve => 20
    case ConsumptionLimitsGet => 23 case ConsumptionLimitsReplace => 24
    case MitigationExecute => 38
  }

  lemma GovernanceVocabulary(op: Operation)
    ensures op in GOVERNANCE <==> IntroducedBy(op) <= 0
  {
  }

  lemma ControlVocabulary(op: Operation)
    ensures op in CONTROL_REST <==> IntroducedBy(op) == 3 && op != PrincipalsCreate
  {
  }

  lemma GrantVocabulary(op: Operation)
    ensures op in GRANT_OPERATIONS <==> IntroducedBy(op) == 7
  {
  }

  lemma AliasVocabulary(op: Operation)
    ensures op in ALIAS_OPERATIONS <==> IntroducedBy(op) == 8
  {
  }

  lemma AliasMutationVocabulary(op: Operation)
    ensures op in ALIAS_MUTATION_OPERATIONS <==> IntroducedBy(op) == 9
  {
  }

  lemma CatalogVocabulary(op: Operation)
    ensures op in CATALOG_OPERATIONS <==> IntroducedBy(op) == 10
  {
  }

  lemma McpVocabulary(op: Operation)
    ensures op in MCP_OPERATIONS <==> IntroducedBy(op) == 12
  {
  }

  lemma TrunkVocabularies(op: Operation)
    ensures op in GOVERNANCE <==> IntroducedBy(op) <= 0
    ensures op in CONTROL_PLANE <==> IntroducedBy(op) <= 3
    ensures op in GRANTS <==> IntroducedBy(op) <= 7
    ensures op in ALIASES <==> IntroducedBy(op) <= 8
    ensures op in ALIAS_MUTATIONS <==> IntroducedBy(op) <= 9
    ensures op in CATALOG <==> IntroducedBy(op) <= 10
    ensures op in MCP <==> IntroducedBy(op) <= 12
  {
    GovernanceVocabulary(op);
    ControlVocabulary(op);
    GrantVocabulary(op);
    AliasVocabulary(op);
    AliasMutationVocabulary(op);
    CatalogVocabulary(op);
    McpVocabulary(op);
  }

  lemma ReorderedVocabularies(op: Operation)
    ensures op in MCP_REORDERED <==> IntroducedBy(op) <= 12
    ensures op in USAGE <==> IntroducedBy(op) <= 15
    ensures op in BOK <==> IntroducedBy(op) <= 17
  {
    GovernanceVocabulary(op);
    ControlVocabulary(op);
    GrantVocabulary(op);
    AliasVocabulary(op);
    AliasMutationVocabulary(op);
    CatalogVocabulary(op);
    McpVocabulary(op);
  }

  lemma SkillVocabularies(op: Operation)
    ensures op in MERGED <==> IntroducedBy(op) <= 17
    ensures op in SKILL_STATUS <==> IntroducedBy(op) <= 19
    ensures op in SKILL_RESOLUTION <==> IntroducedBy(op) <= 20
    ensures op in SKILL_USAGE <==> IntroducedBy(op) <= 19
    ensures op in CONSUMPTION_READ <==> IntroducedBy(op) <= 23
    ensures op in UNION <==> IntroducedBy(op) <= 24
    ensures op in MITIGATION <==> IntroducedBy(op) <= 38
  {
    TrunkVocabularies(op);
  }

  predicate ReplacesCheck(r: RevisionId) {
    r in {3, 7, 8, 9, 10, 12, 15, 17, 19, 20, 21, 22, 23, 24, 38}
  }

  lemma WhoReplaces(r: RevisionId)
    requires r < |REVISIONS|
    ensures REVISIONS[r].edit.Replaces? <==> ReplacesCheck(r)
    ensures REVISIONS[r].edit.CreatesTable? <==> r == 0
  {
  }

  lemma VocabularyOfTrunk(r: RevisionId, op: Operation)
    requires r <= 12 && !EditAt(r).Keeps?
    ensures op in EditAt(r).created <==> IntroducedBy(op) <= r
  {
    TrunkVocabularies(op);
  }

  lemma VocabularyOfReordered(r: RevisionId, op: Operation)
    requires 12 < r <= 17 && !EditAt(r).Keeps?
    ensures op in EditAt(r).created <==> IntroducedBy(op) <= r
  {
    ReorderedVocabularies(op);
  }

  lemma VocabularyOfBranches(r: RevisionId, op: Operation)
    requires 17 < r <= 22 && !EditAt(r).Keeps?
    ensures op in EditAt(r).created <==> IntroducedBy(op) <= r && !(r == 21 && op == SkillsResolve)
  {
    NothingElseOnTheBranches(op);
    if r == 19 {
      SkillVocabularies(op);
    } else if r == 21 {
      SkillVocabularies(op);
    } else {
      assert EditAt(r).created == SKILL_RESOLUTION;
      SkillVocabularies(op);
    }
  }

  lemma NothingElseOnTheBranches(op: Operation)
    ensures IntroducedBy(op) !in {18, 21, 22} && (IntroducedBy(op) == 20 <==> op == SkillsResolve)
  {
  }

  lemma VocabularyFromConsumption(r: RevisionId, op: Operation)
    requires 22 < r && !EditAt(r).Keeps?
    ensures op in EditAt(r).created <==> IntroducedBy(op) <= r
  {
    SkillVocabularies(op);
  }

  /** A revision's CHECK admits exactly what was introduced up to it, except that 20260930_18
      lacks the operation of its sibling. */
  lemma VocabularyOf(r: RevisionId, op: Operation)
    requires r < |REVISIONS| && !REVISIONS[r].edit.Keeps?
    ensures op in REVISIONS[r].edit.created <==> IntroducedBy(op) <= r && !(r == 21 && op == SkillsResolve)
  {
    if r <= 12 {
      VocabularyOfTrunk(r, op);
    } else if r <= 17 {
      VocabularyOfReordered(r, op);
    } else if r <= 22 {
      VocabularyOfBranches(r, op);
    } else {
      VocabularyFromConsumption(r, op);
    }
  }

  lemma GuardOfTrunk(r: RevisionId, op: Operation)
    requires r <= 8 && EditAt(r).Replaces?
    ensures op in EditAt(r).guard <==> IntroducedBy(op) == r && r != 3
  {
  }

  lemma GuardOfCatalog(r: RevisionId, op: Operation)
    requires 8 < r <= 10 && EditAt(r).Replaces?
    ensures op in EditAt(r).guard <==> IntroducedBy(op) == r
  {
  }

  lemma GuardOfMcpToBok(r: RevisionId, op: Operation)
    requires 10 < r <= 17 && EditAt(r).Replaces?
    ensures op in EditAt(r).guard <==> IntroducedBy(op) == r
  {
  }

  lemma GuardOfBranches(r: RevisionId, op: Operation)
    requires 17 < r && EditAt(r).Replaces?
    ensures op in EditAt(r).guard <==>
      || IntroducedBy(op) == r
      || (r == 21 && op in {CatalogStatusReplace, SkillsResolve})
      || (r == 22 && op == SkillsResolve)
  {
  }

  /** The downgrade guards name what the revision introduces. 20260902_04 has none, and the two
      merges also name what a sibling branch introduced. */
  lemma GuardOf(r: RevisionId, op: Operation)
    requires r < |REVISIONS| && REVISIONS[r].edit.Replaces?
    ensures op in REVISIONS[r].edit.guard <==>
      || (IntroducedBy(op) == r && r != 3)
      || (r == 21 && op in {CatalogStatusReplace, SkillsResolve})
      || (r == 22 && op == SkillsResolve)
  {
    if r <= 8 {
      GuardOfTrunk(r, op);
    } else if r <= 10 {
      GuardOfCatalog(r, op);
    } else if r <= 17 {
      GuardOfMcpToBok(r, op);
    } else {
      GuardOfBranches(r, op);
    }
  }

  lemma RestoredByTrunk(r: RevisionId, op: Operation)
    requires r <= 12 && EditAt(r).Replaces?
    ensures op in EditAt(r).restored <==> IntroducedBy(op) < r
  {
    TrunkVocabularies(op);
  }

  lemma RestoredByBranches(r: RevisionId, op: Operation)
    requires 12 < r && EditAt(r).Replaces?
    ensures op in EditAt(r).restored <==>
      IntroducedBy(op) < (if r == 21 then 19 else if r == 22 then 20 else r)
  {
    if r <= 17 {
      ReorderedVocabularies(op);
    } else {
      SkillVocabularies(op);
    }
  }

  /** A downgrade restores exactly what was introduced before the revision and is not guarded. */
  lemma RestoredBy(r: RevisionId, op: Operation)
    requires r < |REVISIONS| && REVISIONS[r].edit.Replaces?
    ensures op in REVISIONS[r].edit.restored <==> IntroducedBy(op) < r && op !in REVISIONS[r].edit.guard
  {
    GuardOf(r, op);
    if r <= 12 {
      RestoredByTrunk(r, op);
    } else {
      RestoredByBranches(r, op);
    }
  }

  lemma IntroducedByDeclares(op: Operation)
    ensures IntroducedBy(op) < |REVISIONS| && op in Created(REVISIONS[IntroducedBy(op)].edit)
    ensures IntroducedBy(op) !in {14, 27, 28, 29}
  {
    var r := IntroducedBy(op);
    assert r == 0 || ReplacesCheck(r);
    WhoReplaces(r);
    VocabularyOf(r, op);
  }

  // ------------------------------------------------------------------ the history is sound

  /** A revision outside the descendants of `r` comes before it, or is the one later sibling. */
  lemma BesideIsBefore(r: RevisionId, q: RevisionId, op: Operation)
    requires r < |REVISIONS| && q < |REVISIONS| && r !in {14, 27, 28, 29}
    requires WellOrdered(REVISIONS) && DeclaredBeside(REVISIONS, r, q, op)
    ensures IntroducedBy(op) <= q
    ensures q <= r || (r == 20 && q == 21 && op != SkillsResolve)
  {
    WhoReplaces(q);
    VocabularyOf(q, op);
    if q > r && !(r == 20 && q == 21) {
      LaterRevisionsDescend(r, q);
    }
  }

  lemma ChecksAreWideExceptOne(r: RevisionId, q: RevisionId, op: Operation)
    requires r < |REVISIONS| && q < |REVISIONS| && r != R20260930_18
    requires WellOrdered(REVISIONS) && REVISIONS[r].edit.Replaces? && DeclaredBeside(REVISIONS, r, q, op)
    ensures op in REVISIONS[r].edit.created
  {
    WhoReplaces(r);
    BesideIsBefore(r, q, op);
    VocabularyOf(r, op);
    if q == 21 {
      VocabularyOf(21, op);
    }
  }

  lemma LegacyTexts(c: Check)
    requires Configured(REVISIONS, INTEGRATION)
    ensures c in LegacyChecks(REVISIONS, INTEGRATION) ==>
      c != UNION && c in {USAGE, BOK, SKILL_STATUS, SKILL_RESOLUTION, SKILL_USAGE, CONSUMPTION_READ}
  {
    assert Created(REVISIONS[R20261001_02].edit) == UNION;
  }

  lemma SiblingTextIsLegacy()
    requires Configured(REVISIONS, INTEGRATION)
    ensures SKILL_USAGE in LegacyChecks(REVISIONS, INTEGRATION)
  {
    assert UNION != SKILL_USAGE by {
      SkillVocabularies(SkillsResolve);
    }
    assert R20260930_18 in INTEGRATION.legacy;
    assert Created(REVISIONS[R20260930_18].edit) == SKILL_USAGE;
    assert Created(REVISIONS[R20261001_02].edit) == UNION;
  }

  lemma DeferredRevisionsPrecedeTheUnion(r: RevisionId)
    requires r < |REVISIONS| && WellOrdered(REVISIONS) && REVISIONS[r].edit.Replaces?
    requires Configured(REVISIONS, INTEGRATION)
    requires REVISIONS[r].edit.created in LegacyChecks(REVISIONS, INTEGRATION)
    ensures r in Ancestors(REVISIONS, INTEGRATION.union)
  {
    WhoReplaces(r);
    LegacyTexts(REVISIONS[r].edit.created);
    if r == 38 {
      SkillVocabularies(MitigationExecute);
      ReorderedVocabularies(MitigationExecute);
    } else {
      LaterRevisionsDescend(r, 24);
    }
  }

  lemma RestoredIsDeclaredBelow(r: RevisionId, op: Operation) returns (a: RevisionId)
    requires r < |REVISIONS| && WellOrdered(REVISIONS)
    requires REVISIONS[r].edit.Replaces? && op in REVISIONS[r].edit.restored
    ensures a in Ancestors(REVISIONS, r) && a != r && op in Created(REVISIONS[a].edit)
  {
    RestoredBy(r, op);
    IntroducedByDeclares(op);
    a := IntroducedBy(op);
    if r == 21 && a == 20 {
      GuardOf(r, op);
      assert false;
    } else {
      LaterRevisionsDescend(a, r);
    }
  }

  lemma EveryReferenceExists()
    ensures Configured(REVISIONS, INTEGRATION)
  {
  }

  lemma ChecksOnTheValidatingPathAreWide()
    requires WellOrdered(REVISIONS) && Configured(REVISIONS, INTEGRATION)
    ensures ValidatedChecksAreWide(REVISIONS, LegacyChecks(REVISIONS, INTEGRATION))
  {
    SiblingTextIsLegacy();
    assert REVISIONS[R20260930_18].edit.created == SKILL_USAGE;
    forall r, q, op | 0 <= r < |REVISIONS| && 0 <= q < |REVISIONS| && REVISIONS[r].edit.Replaces?
        && REVISIONS[r].edit.created !in LegacyChecks(REVISIONS, INTEGRATION) && DeclaredBeside(REVISIONS, r, q, op)
      ensures op in REVISIONS[r].edit.created
    {
      ChecksAreWideExceptOne(r, q, op);
    }
  }

  lemma TheUnionClosesTheDeferral()
    requires WellOrdered(REVISIONS) && Configured(REVISIONS, INTEGRATION)
    ensures UnionClosesTheDeferral(REVISIONS, INTEGRATION.union, LegacyChecks(REVISIONS, INTEGRATION))
  {
    LegacyTexts(UNION);
    assert REVISIONS[INTEGRATION.union].edit == Replaces(UNION, CONSUMPTION_READ, {ConsumptionLimitsReplace});
    forall r | 0 <= r < |REVISIONS| && REVISIONS[r].edit.Replaces?
        && REVISIONS[r].edit.created in LegacyChecks(REVISIONS, INTEGRATION)
      ensures r in Ancestors(REVISIONS, INTEGRATION.union)
    {
      DeferredRevisionsPrecedeTheUnion(r);
    }
  }

  lemma DowngradesRestoreWhatWasDeclared()
    requires WellOrdered(REVISIONS)
    ensures RestoresAreDeclared(REVISIONS)
  {
    forall r, op | 0 <= r < |REVISIONS| && REVISIONS[r].edit.Replaces? && op in REVISIONS[r].edit.restored
      ensures exists a :: a in Ancestors(REVISIONS, r) && a != r && op in Created(REVISIONS[a].edit)
    {
      var a := RestoredIsDeclaredBelow(r, op);
    }
  }

  /** This repository's history meets every condition the guarded upgrade relies on. */
  lemma HistoryIsSound()
    ensures Sound(REVISIONS, INTEGRATION)
  {
    HistoryIsWellOrdered();
    EveryReferenceExists();
    ChecksOnTheValidatingPathAreWide();
    TheUnionClosesTheDeferral();
    DowngradesRestoreWhatWasDeclared();
  }

  /** Every downgrade guard covers what its narrower CHECK would lose, with one exception: the
      control-plane revision 20260902_04 narrows the CHECK without any guard. */
  lemma GuardsAreCompleteExceptOne(r: RevisionId)
    requires r < |REVISIONS|
    ensures WellOrdered(REVISIONS)
    ensures GuardIsComplete(REVISIONS, r) <==> r != R20260902_04
  {
    HistoryIsWellOrdered();
    WhoReplaces(r);
    if r == R20260902_04 {
      VocabularyOf(r, PrincipalsCreate);
      RestoredBy(r, PrincipalsCreate);
      assert DeclaredBeside(REVISIONS, r, r, PrincipalsCreate);
    } else if REVISIONS[r].edit.Replaces? {
      forall q, op | 0 <= q < |REVISIONS| && DeclaredBeside(REVISIONS, r, q, op)
        ensures op in REVISIONS[r].edit.restored || op in REVISIONS[r].edit.guard
      {
        BesideIsBefore(r, q, op);
        RestoredBy(r, op);
        GuardOf(r, op);
        if q == 21 {
          VocabularyOf(21, op);
        }
      }
    }
  }

  // ------------------------------------------------------------------ results about this repository

  /** From any database below the target, whose rows the applied branches declared, in any order of
      the missing revisions, an upgrade to the union head or beyond commits: it never fails on the
      operation CHECK, keeps every row, and ends on the target with a validated CHECK. */
  lemma UpgradeToUnionOrBeyondCommits(s: State, target: RevisionId, plan: seq<RevisionId>) returns (end: State)
    requires R20261001_02 <= target < |REVISIONS| && target !in s.applied
    requires (HistoryIsSound(); Upgradable(REVISIONS, R20261001_02, s)
      && Heads(REVISIONS, s.applied) <= Ancestors(REVISIONS, target)
      && UpgradePlan(REVISIONS, s.applied, target, plan))
    ensures (HistoryIsSound(); Upgrade(REVISIONS, INTEGRATION, s, target, plan) == Committed(end))
    ensures Heads(REVISIONS, end.applied) == {target}
    ensures end.rows == s.rows && end.validated && Admits(end.check, s.rows)
  {
    HistoryIsSound();
    LaterRevisionsDescend(R20261001_02, target);
    TargetIsAppliedOnlyAsSoleHead(REVISIONS, s.applied, target);
    end := GuardedUpgradeCommits(REVISIONS, INTEGRATION, s, target, plan);
  }

  /** Without the deferral the same upgrade fails as soon as one branch has recorded a skill
      resolution and the sibling 20260930_18 is still missing. */
  lemma PlainUpgradeFailsOnSiblingRows(s: State, target: RevisionId, plan: seq<RevisionId>)
    requires target < |REVISIONS|
    requires (HistoryIsSound(); Consistent(REVISIONS, s) && UpgradePlan(REVISIONS, s.applied, target, plan))
    ensures RunUp(REVISIONS, {}, s, plan).RolledBack? <==> R20260930_18 in plan && SkillsResolve in s.rows
  {
    HistoryIsSound();
    PlainRunFailsIff(REVISIONS, s, plan);
    if RunUp(REVISIONS, {}, s, plan).RolledBack? {
      var i :| 0 <= i < |plan| && plan[i] < |REVISIONS| && REVISIONS[plan[i]].edit.Replaces?
        && !Admits(REVISIONS[plan[i]].edit.created, s.rows);
      assert plan[i] in plan;
      RowsPassMissingCheck(s, plan[i]);
    } else if R20260930_18 in plan {
      WhoReplaces(R20260930_18);
      RowsPassMissingCheck(s, R20260930_18);
    }
  }

  /** What an applied revision declared, a missing one admits, unless the two are the siblings. */
  lemma DeclaredPassesMissingCheck(applied: set<RevisionId>, r: RevisionId, op: Operation)
    requires WellOrdered(REVISIONS) && DownwardClosed(REVISIONS, applied) && r < |REVISIONS| && r !in applied
    requires REVISIONS[r].edit.Replaces? && Declared(REVISIONS, applied, op)
    ensures op in REVISIONS[r].edit.created <==> !(r == R20260930_18 && op == SkillsResolve)
  {
    var q :| q in applied && op in Created(REVISIONS[q].edit);
    ClosedSetsHoldAncestors(REVISIONS, applied, q);
    if r == R20260930_18 && op == SkillsResolve {
      VocabularyOf(r, op);
    } else if r == R20260930_18 {
      WhoReplaces(r);
      BesideIsBefore(r, q, op);
      VocabularyOf(r, op);
    } else {
      ChecksAreWideExceptOne(r, q, op);
    }
  }

  lemma RowsPassMissingCheck(s: State, r: RevisionId)
    requires WellOrdered(REVISIONS) && Consistent(REVISIONS, s) && r < |REVISIONS| && r !in s.applied
    requires REVISIONS[r].edit.Replaces?
    ensures Admits(REVISIONS[r].edit.created, s.rows) <==> r != R20260930_18 || SkillsResolve !in s.rows
  {
    forall i | 0 <= i < |s.rows|
      ensures s.rows[i] in REVISIONS[r].edit.created <==> !(r == R20260930_18 && s.rows[i] == SkillsResolve)
    {
      DeclaredPassesMissingCheck(s.applied, r, s.rows[i]);
    }
  }

  /** Undoing a head fails only because one of its guards finds evidence, whichever sibling set
      the live CHECK; only 20260902_04 can still fail on the constraint scan itself. */
  lemma DowngradeFailsOnlyOnEvidence(s: State, r: RevisionId)
    requires (HistoryIsSound(); Consistent(REVISIONS, s) && r in Heads(REVISIONS, s.applied))
    requires r != R20260902_04
    ensures StepDown(REVISIONS, s, r, true).RolledBack? <==>
      REVISIONS[r].edit.Replaces? && exists op :: op in REVISIONS[r].edit.guard && op in s.rows
  {
    HistoryIsSound();
    GuardsAreCompleteExceptOne(r);
    CompleteGuardSuffices(REVISIONS, s, r);
  }

  /** The exception: that downgrade fails on the scan exactly when a control-plane row exists,
      although its guard, being empty, never refuses. */
  lemma ControlPlaneDowngradeHasNoGuard(s: State)
    requires (HistoryIsSound(); Consistent(REVISIONS, s) && R20260902_04 in Heads(REVISIONS, s.applied))
    ensures REVISIONS[R20260902_04].edit == Replaces(CONTROL_PLANE, GOVERNANCE, {})
    ensures StepDown(REVISIONS, s, R20260902_04, true).RolledBack? <==>
      exists i :: 0 <= i < |s.rows| && IntroducedBy(s.rows[i]) == R20260902_04
  {
    HistoryIsSound();
    forall i | 0 <= i < |s.rows|
      ensures s.rows[i] in GOVERNANCE <==> IntroducedBy(s.rows[i]) != R20260902_04
    {
      DeclaredUpToControlPlane(s.applied, s.rows[i]);
      GovernanceVocabulary(s.rows[i]);
    }
  }

  lemma FirstIntroductions(op: Operation)
    ensures IntroducedBy(op) <= R20260902_04 ==> IntroducedBy(op) in {0, R20260902_04}
  {
  }

  lemma DeclaredUpToControlPlane(applied: set<RevisionId>, op: Operation)
    requires WellOrdered(REVISIONS) && DownwardClosed(REVISIONS, applied)
    requires R20260902_04 in Heads(REVISIONS, applied) && Declared(REVISIONS, applied, op)
    ensures IntroducedBy(op) in {0, R20260902_04}
  {
    FirstIntroductions(op);
    var q :| q in applied && op in Created(REVISIONS[q].edit);
    if q != R20260902_04 {
      HeadIsNoProperAncestor(REVISIONS, applied, R20260902_04, q);
    }
    BesideIsBefore(R20260902_04, q, op);
  }

  /** Every run of this repository's migrations from the empty database keeps all audit rows
      legal under a validated CHECK, and rows are lost only by dropping the table. */
  lemma EveryRepositoryRun(states: seq<State>, events: seq<Event>, m: nat, n: nat)
    requires m <= n < |states| && states[0] == Empty()
    requires (HistoryIsSound(); IsRun(REVISIONS, INTEGRATION, states, events))
    ensures states[n].validated && Admits(states[n].check, states[n].rows)
    ensures
      || states[m].rows <= states[n].rows
      || exists i :: m <= i < n && events[i].DowngradeBy? && DropsTable(events[i].undos)
  {
    HistoryIsSound();
    EveryRunStaysConsistent(REVISIONS, INTEGRATION, states, events, n);
    if forall i :: m <= i < n && events[i].DowngradeBy? ==> !DropsTable(events[i].undos) {
      RowsAreNeverLost(REVISIONS, INTEGRATION, states, events, m, n);
    }
  }

  // ------------------------------------------------------------------ a database with both histories

  predicate OnThatBranch(r: RevisionId) {
    r <= R20260926_16
  }

  /** The branch with 20260926_16 has recorded a skill resolution; its sibling 20260930_18 is still
      missing. */
  function RecordedResolution(): State {
    State(set r: RevisionId | 0 <= r <= R20260926_16 && OnThatBranch(r), [SkillsResolve], SKILL_RESOLUTION, true)
  }

  const TO_THE_UNION: seq<RevisionId> := [R20260930_18, R20260930_19, R20261001_01, R20261001_02]

  lemma RecordedResolutionIsConsistent()
    ensures WellOrdered(REVISIONS) && Consistent(REVISIONS, RecordedResolution())
  {
    HistoryIsWellOrdered();
    var s := RecordedResolution();
    SkillVocabularies(SkillsResolve);
    assert Created(REVISIONS[R20260926_16].edit) == SKILL_RESOLUTION;
    forall op | op in s.check
      ensures Declared(REVISIONS, s.applied, op)
    {
      assert R20260926_16 in s.applied;
    }
  }

  lemma TheUnionIsReached(r: RevisionId)
    ensures WellOrdered(REVISIONS)
    ensures r in TO_THE_UNION <==> r in Ancestors(REVISIONS, R20261001_02) && r !in RecordedResolution().applied
  {
    HistoryIsWellOrdered();
    if R20260926_16 < r <= R20261001_02 {
      LaterRevisionsDescend(r, R20261001_02);
    }
    assert TO_THE_UNION == [21, 22, 23, 24];
  }

  lemma TheUnionPlanRuns()
    ensures WellOrdered(REVISIONS) && Runnable(REVISIONS, RecordedResolution().applied, TO_THE_UNION)
  {
    HistoryIsWellOrdered();
    var a0 := RecordedResolution().applied;
    var a1, a2, a3 := a0 + {21}, a0 + {21} + {22}, a0 + {21} + {22} + {23};
    assert TO_THE_UNION[1..][1..][1..][1..] == [];
    assert Runnable(REVISIONS, a3 + {24}, []);
    assert Runnable(REVISIONS, a3, TO_THE_UNION[3..]);
    assert TO_THE_UNION[2..][1..] == TO_THE_UNION[3..] && Runnable(REVISIONS, a2, TO_THE_UNION[2..]);
    assert TO_THE_UNION[1..][1..] == TO_THE_UNION[2..] && Runnable(REVISIONS, a1, TO_THE_UNION[1..]);
  }

  /** From there the guarded upgrade to the union commits with the row kept, while the same plan
      without the deferral rolls back. */
  lemma TheDeferralIsNeeded() returns (end: State)
    ensures (HistoryIsSound();
      Upgrade(REVISIONS, INTEGRATION, RecordedResolution(), R20261001_02, TO_THE_UNION) == Committed(end))
    ensures end.rows == [SkillsResolve] && end.validated && Admits(end.check, end.rows)
    ensures RunUp(REVISIONS, {}, RecordedResolution(), TO_THE_UNION).RolledBack?
  {
    HistoryIsSound();
    var s := RecordedResolution();
    RecordedResolutionIsConsistent();
    ConsistentRowsAreDeclared(REVISIONS, s);
    forall r
      ensures r in TO_THE_UNION <==> r in Ancestors(REVISIONS, R20261001_02) && r !in s.applied
    {
      TheUnionIsReached(r);
    }
    TheUnionPlanRuns();
    forall r | r in s.applied
      ensures r in Ancestors(REVISIONS, R20261001_02)
    {
      AppliedIsBelowTheUnion(r);
    }
    end := UpgradeToUnionOrBeyondCommits(s, R20261001_02, TO_THE_UNION);
    PlainUpgradeFailsOnSiblingRows(s, R20261001_02, TO_THE_UNION);
    assert TO_THE_UNION[0] == R20260930_18 && s.rows[0] == SkillsResolve;
  }

  lemma AppliedIsBelowTheUnion(r: RevisionId)
    requires r <= R20260926_16
    ensures WellOrdered(REVISIONS) && r in Ancestors(REVISIONS, R20261001_02)
  {
    HistoryIsWellOrdered();
    if r == 14 {
      LaterRevisionsDescend(16, R20261001_02);
      ParentIsAncestor(REVISIONS, 14, 16);
      AncestorsAreTransitive(REVISIONS, 14, 16, R20261001_02);
    } else {
      LaterRevisionsDescend(r, R20261001_02);
    }
  }
}
