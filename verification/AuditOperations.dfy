/** The words of the audit vocabulary, as the migrations spell them. */
module AuditOperations {

  datatype Operation =
    | AuditAccept | AuditExport | AuditProject | AuditRedact
    | CredentialsAuthenticate | ResponsesCreate
    | PrincipalsCreate | PrincipalsGet | PrincipalsList | PrincipalsStatusReplace
    | CredentialsIssue | CredentialsList | CredentialsRevoke | CredentialsRotate
    | GrantsCreate | GrantsList | GrantsRevoke
    | AliasesCreate | AliasesList | AliasesGet | AliasesAssignmentReplace | AliasesStatusReplace
    | CatalogCreate | CatalogList | CatalogRead | CatalogStatusReplace
    | McpDiscovery | McpInvoke
    | UsageRead
    | BokSearch | BokRead
    | SkillsResolve
    | ConsumptionLimitsGet | ConsumptionLimitsReplace
    | MitigationExecute

  /** The text of a CHECK: the admitted operations in the order it lists them. `env.py`
      recognises a legacy CHECK by its text, not by the set it admits. */
  type Check = seq<Operation>
}
