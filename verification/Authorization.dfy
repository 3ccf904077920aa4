/** The incident grant matrix: the two checks of `scripts/validate_incident_authorization.py`
against the exact-match, deny-by-default engine of `src/sre_agent/governance/authorization.py`. */
module Authorization {
  import opened Options

  datatype Principal = Principal(id: string, status: string)
  datatype Resource = Resource(kind: string, id: string, status: string)

  /** A grant as written: any field may be missing. */
  datatype Grant = Grant(key: Key, effect: Option<string>, status: Option<string>)

  /** Who, doing what, to which resource. */
  datatype Key = Key(principal: Option<string>, action: Option<string>, kind: Option<string>, id: Option<string>)

  datatype Catalogue = Catalogue(
    principals: seq<Principal>, resources: seq<Resource>, actions: seq<string>, grants: seq<Grant>)

  const ACTIVE := "active"
  const ALLOW := "allow"
  const DENY := "deny"
  const ADMIN := "admin-human"

  datatype Cause = PrincipalInactive | ResourceMissing | ResourceInactive | GrantNotApplicable

  function CauseName(c: Cause): string {
    match c
    case PrincipalInactive => "principal_inactive"
    case ResourceMissing => "resource_missing"
    case ResourceInactive => "resource_inactive"
    case GrantNotApplicable => "grant_not_applicable"
  }

  predicate IsDenialCause(name: string) {
    exists c :: CauseName(c) == name
  }

  // ------------------------------------------------------------------ lookups

  /** A dict built over a list: the last entry of an id wins. */
  function PrincipalOf(ps: seq<Principal>, id: Option<string>): Option<Principal> {
    if ps == [] then None
    else if id == Some(ps[|ps| - 1].id) then Some(ps[|ps| - 1])
    else PrincipalOf(ps[..|ps| - 1], id)
  }

  function ResourceOf(rs: seq<Resource>, kind: Option<string>, id: Option<string>): Option<Resource> {
    if rs == [] then None
    else if kind == Some(rs[|rs| - 1].kind) && id == Some(rs[|rs| - 1].id) then Some(rs[|rs| - 1])
    else ResourceOf(rs[..|rs| - 1], kind, id)
  }

  predicate ActiveAllow(g: Grant) {
    g.effect == Some(ALLOW) && g.status == Some(ACTIVE)
  }

  /** The key of some active allow grant, field by field. */
  predicate Allowed(c: Catalogue, key: Key) {
    exists g :: g in c.grants && ActiveAllow(g) && g.key == key
  }

  // ------------------------------------------------------------------ the engine

  datatype Decision = Allow | Deny(cause: Cause)

  /** `AuthorizationDecisionEngine.evaluate`, in its fixed order of facts. A principal the
      catalogue does not declare counts as inactive, as the scenario check has it. */
  function Engine(c: Catalogue, key: Key): Decision {
    var principal := PrincipalOf(c.principals, key.principal);
    var resource := ResourceOf(c.resources, key.kind, key.id);
    if principal.None? || principal.value.status != ACTIVE then Deny(PrincipalInactive)
    else if resource.None? then Deny(ResourceMissing)
    else if resource.value.status != ACTIVE then Deny(ResourceInactive)
    else if !Allowed(c, key) then Deny(GrantNotApplicable)
    else Allow
  }

  // ------------------------------------------------------------------ check_grants

  predicate GrantWellFormed(c: Catalogue, g: Grant) {
    && PrincipalOf(c.principals, g.key.principal).Some?
    && g.key.action.Some? && g.key.action.value in c.actions
    && ResourceOf(c.resources, g.key.kind, g.key.id).Some?
    && ActiveAllow(g)
  }

  ghost predicate DistinctKeys(grants: seq<Grant>) {
    forall i, j :: 0 <= i < j < |grants| ==> grants[i].key != grants[j].key
  }

  ghost predicate GrantsWellFormed(c: Catalogue) {
    && DistinctKeys(c.grants)
    && (forall g :: g in c.grants ==> GrantWellFormed(c, g))
    && PrincipalsActiveIn(c)
    && ResourcesActiveIn(c)
  }

  predicate NotInactivePrincipal(c: Catalogue, id: Option<string>) {
    PrincipalOf(c.principals, id).Some? ==> PrincipalOf(c.principals, id).value.status == ACTIVE
  }

  predicate NotInactiveResource(c: Catalogue, kind: Option<string>, id: Option<string>) {
    ResourceOf(c.resources, kind, id).Some? ==> ResourceOf(c.resources, kind, id).value.status == ACTIVE
  }

  /** Every principal of the dict is active. */
  ghost predicate PrincipalsActiveIn(c: Catalogue) {
    forall id :: NotInactivePrincipal(c, id)
  }

  ghost predicate ResourcesActiveIn(c: Catalogue) {
    forall kind, id :: NotInactiveResource(c, kind, id)
  }

  datatype GrantError =
    | DuplicateGrant(grant: nat)
    | UndeclaredPrincipal(grant: nat)
    | UndeclaredAction(grant: nat)
    | UndeclaredResource(grant: nat)
    | NotAnAllow(grant: nat)
    | NotActive(grant: nat)
    | InactivePrincipal(id: string)
    | InactiveResource(kind: string, id: string)

  /** The errors that apply to one grant, its repeats aside. */
  predicate GrantViolates(c: Catalogue, g: Grant, i: nat, e: GrantError) {
    || (e == UndeclaredPrincipal(i) && PrincipalOf(c.principals, g.key.principal).None?)
    || (e == UndeclaredAction(i) && (g.key.action.None? || g.key.action.value !in c.actions))
    || (e == UndeclaredResource(i) && ResourceOf(c.resources, g.key.kind, g.key.id).None?)
    || (e == NotAnAllow(i) && g.effect != Some(ALLOW))
    || (e == NotActive(i) && g.status != Some(ACTIVE))
  }

  predicate RepeatsEarlier(grants: seq<Grant>, i: nat) {
    i < |grants| && exists j :: 0 <= j < i && grants[j].key == grants[i].key
  }

  predicate PrincipalViolates(c: Catalogue, e: GrantError) {
    e.InactivePrincipal? && !NotInactivePrincipal(c, Some(e.id))
  }

  predicate ResourceViolates(c: Catalogue, e: GrantError) {
    e.InactiveResource? && !NotInactiveResource(c, Some(e.kind), Some(e.id))
  }

  predicate RepeatFound(c: Catalogue, n: nat, e: GrantError) {
    e.DuplicateGrant? && e.grant < n && RepeatsEarlier(c.grants, e.grant)
  }

  /** An error that applies to one of the first `n` grants. */
  predicate GrantFound(c: Catalogue, n: nat, e: GrantError)
    requires n <= |c.grants|
  {
    exists i :: 0 <= i < n && GrantViolates(c, c.grants[i], i, e)
  }

  /** What `check_grants` has to report. */
  predicate GrantsViolate(c: Catalogue, e: GrantError) {
    || RepeatFound(c, |c.grants|, e)
    || GrantFound(c, |c.grants|, e)
    || PrincipalViolates(c, e)
    || ResourceViolates(c, e)
  }

  /** `check_grants`: reports exactly the violations, and nothing exactly on well-formed matrices. */
  method CheckGrants(c: Catalogue) returns (errors: seq<GrantError>)
    ensures forall e :: e in errors <==> GrantsViolate(c, e)
    ensures errors == [] <==> GrantsWellFormed(c)
  {
    var grants := CheckGrantList(c);
    var principals := CheckPrincipals(c);
    var resources := CheckResources(c);
    errors := grants + principals + resources;
    GrantsViolationFree(c);
    assert errors != [] ==> errors[0] in errors;
  }

  /** The loop over the grants. */
  method CheckGrantList(c: Catalogue) returns (errors: seq<GrantError>)
    ensures forall e :: e in errors <==> RepeatFound(c, |c.grants|, e) || GrantFound(c, |c.grants|, e)
  {
    errors := [];
    var seen: set<Key> := {};
    for i := 0 to |c.grants|
      invariant forall k :: k in seen <==> exists j :: 0 <= j < i && c.grants[j].key == k
      invariant forall e :: e in errors <==> RepeatFound(c, i, e) || GrantFound(c, i, e)
    {
      var g := c.grants[i];
      var found := CheckGrant(c, g, i);
      if g.key in seen { found := found + [DuplicateGrant(i)]; }
      assert RepeatsEarlier(c.grants, i) <==> g.key in seen;
      assert forall e :: GrantFound(c, i + 1, e) <==> GrantFound(c, i, e) || GrantViolates(c, g, i, e);
      forall e
        ensures RepeatFound(c, i + 1, e) <==> RepeatFound(c, i, e) || (e == DuplicateGrant(i) && g.key in seen)
      {
        assert e.DuplicateGrant? && e.grant == i ==> e == DuplicateGrant(i);
      }
      seen := seen + {g.key};
      errors := errors + found;
    }
  }

  method CheckGrant(c: Catalogue, g: Grant, i: nat) returns (errors: seq<GrantError>)
    ensures forall e :: e in errors <==> GrantViolates(c, g, i, e)
  {
    errors := [];
    if PrincipalOf(c.principals, g.key.principal).None? { errors := errors + [UndeclaredPrincipal(i)]; }
    if g.key.action.None? || g.key.action.value !in c.actions { errors := errors + [UndeclaredAction(i)]; }
    if ResourceOf(c.resources, g.key.kind, g.key.id).None? { errors := errors + [UndeclaredResource(i)]; }
    if g.effect != Some(ALLOW) { errors := errors + [NotAnAllow(i)]; }
    if g.status != Some(ACTIVE) { errors := errors + [NotActive(i)]; }
  }

  lemma GrantViolationFree(c: Catalogue, g: Grant, i: nat)
    ensures (forall e :: !GrantViolates(c, g, i, e)) <==> GrantWellFormed(c, g)
  {
    if forall e :: !GrantViolates(c, g, i, e) {
      assert !GrantViolates(c, g, i, UndeclaredPrincipal(i)) && !GrantViolates(c, g, i, UndeclaredAction(i));
      assert !GrantViolates(c, g, i, UndeclaredResource(i)) && !GrantViolates(c, g, i, NotAnAllow(i));
      assert !GrantViolates(c, g, i, NotActive(i));
    }
  }

  /** No error applies exactly when the matrix is well-formed. */
  lemma GrantsViolationFree(c: Catalogue)
    ensures (forall e :: !GrantsViolate(c, e)) <==> GrantsWellFormed(c)
  {
    forall i | 0 <= i < |c.grants|
      ensures (forall e :: !GrantViolates(c, c.grants[i], i, e)) <==> GrantWellFormed(c, c.grants[i])
    {
      GrantViolationFree(c, c.grants[i], i);
    }
    if forall e :: !GrantsViolate(c, e) {
      forall i, j | 0 <= i < j < |c.grants|
        ensures c.grants[i].key != c.grants[j].key
      {
        assert !GrantsViolate(c, DuplicateGrant(j));
      }
      forall i, e | 0 <= i < |c.grants|
        ensures !GrantViolates(c, c.grants[i], i, e)
      {
        assert !GrantsViolate(c, e);
      }
      forall id
        ensures NotInactivePrincipal(c, id)
      {
        if PrincipalOf(c.principals, id).Some? {
          PrincipalIsListed(c.principals, id);
          assert !GrantsViolate(c, InactivePrincipal(id.value));
        }
      }
      forall kind, id
        ensures NotInactiveResource(c, kind, id)
      {
        if ResourceOf(c.resources, kind, id).Some? {
          ResourceIsListed(c.resources, kind, id);
          assert !GrantsViolate(c, InactiveResource(kind.value, id.value));
        }
      }
    } else {
      var e :| GrantsViolate(c, e);
      assert !GrantsWellFormed(c);
    }
  }

  /** Exactly the principals of the dict that are not active. */
  method CheckPrincipals(c: Catalogue) returns (errors: seq<GrantError>)
    ensures forall e :: e in errors <==> PrincipalViolates(c, e)
  {
    errors := [];
    for i := 0 to |c.principals|
      invariant forall e :: e in errors <==>
        PrincipalViolates(c, e) && exists j :: 0 <= j < i && c.principals[j].id == e.id
    {
      DeclaredPrincipal(c.principals, c.principals[i].id, i);
      if PrincipalOf(c.principals, Some(c.principals[i].id)).value.status != ACTIVE {
        errors := errors + [InactivePrincipal(c.principals[i].id)];
      }
    }
    forall e | PrincipalViolates(c, e)
      ensures exists j :: 0 <= j < |c.principals| && c.principals[j].id == e.id
    {
      PrincipalIsListed(c.principals, Some(e.id));
    }
  }

  /** Exactly the resources of the dict that are not active. */
  method CheckResources(c: Catalogue) returns (errors: seq<GrantError>)
    ensures forall e :: e in errors <==> ResourceViolates(c, e)
  {
    errors := [];
    for i := 0 to |c.resources|
      invariant forall e :: e in errors <==>
        ResourceViolates(c, e) && exists j :: 0 <= j < i && c.resources[j].kind == e.kind && c.resources[j].id == e.id
    {
      DeclaredResource(c.resources, c.resources[i].kind, c.resources[i].id, i);
      if ResourceOf(c.resources, Some(c.resources[i].kind), Some(c.resources[i].id)).value.status != ACTIVE {
        errors := errors + [InactiveResource(c.resources[i].kind, c.resources[i].id)];
      }
    }
    forall e | ResourceViolates(c, e)
      ensures exists j :: 0 <= j < |c.resources| && c.resources[j].kind == e.kind && c.resources[j].id == e.id
    {
      ResourceIsListed(c.resources, Some(e.kind), Some(e.id));
    }
  }

  lemma {:induction false} DeclaredPrincipal(ps: seq<Principal>, id: string, i: nat)
    requires i < |ps| && ps[i].id == id
    ensures PrincipalOf(ps, Some(id)).Some?
    decreases |ps|
  {
    if i < |ps| - 1 {
      DeclaredPrincipal(ps[..|ps| - 1], id, i);
    }
  }

  lemma {:induction false} PrincipalIsListed(ps: seq<Principal>, id: Option<string>)
    requires PrincipalOf(ps, id).Some?
    ensures exists j :: 0 <= j < |ps| && id == Some(ps[j].id)
    decreases |ps|
  {
    if id != Some(ps[|ps| - 1].id) {
      PrincipalIsListed(ps[..|ps| - 1], id);
      var j :| 0 <= j < |ps| - 1 && id == Some(ps[..|ps| - 1][j].id);
      assert id == Some(ps[j].id);
    }
  }

  lemma {:induction false} DeclaredResource(rs: seq<Resource>, kind: string, id: string, i: nat)
    requires i < |rs| && rs[i].kind == kind && rs[i].id == id
    ensures ResourceOf(rs, Some(kind), Some(id)).Some?
    decreases |rs|
  {
    if i < |rs| - 1 {
      DeclaredResource(rs[..|rs| - 1], kind, id, i);
    }
  }

  lemma {:induction false} ResourceIsListed(rs: seq<Resource>, kind: Option<string>, id: Option<string>)
    requires ResourceOf(rs, kind, id).Some?
    ensures exists j :: 0 <= j < |rs| && kind == Some(rs[j].kind) && id == Some(rs[j].id)
    decreases |rs|
  {
    if !(kind == Some(rs[|rs| - 1].kind) && id == Some(rs[|rs| - 1].id)) {
      ResourceIsListed(rs[..|rs| - 1], kind, id);
      var j :| 0 <= j < |rs| - 1 && kind == Some(rs[..|rs| - 1][j].kind) && id == Some(rs[..|rs| - 1][j].id);
      assert kind == Some(rs[j].kind) && id == Some(rs[j].id);
    }
  }

  // ------------------------------------------------------------------ check_names_confer_nothing

  predicate NamesConferNothing(c: Catalogue) {
    forall g :: g in c.grants ==> g.key.principal != Some(ADMIN)
  }

  // ------------------------------------------------------------------ check_scenarios

  /** `authenticated` is None when the scenario does not give it; `payload` carries the actor of a
      non-empty payload. */
  datatype Scenario = Scenario(
    id: string, principal: Option<string>, authenticated: Option<Option<string>>, action: Option<string>,
    kind: Option<string>, resource: Option<string>, payload: Option<Option<string>>,
    decision: Option<string>, cause: Option<string>)
  {
    function Actor(): Option<string> {
      if authenticated.Some? then authenticated.value else principal
    }

    function Request(): Key {
      Key(Actor(), action, kind, resource)
    }
  }

  /** The cause the scenario check computes on its own. */
  function ExpectedCause(c: Catalogue, s: Scenario): Option<string> {
    var principal := PrincipalOf(c.principals, s.Actor());
    var resource := ResourceOf(c.resources, s.kind, s.resource);
    if principal.None? || principal.value.status != ACTIVE then Some(CauseName(PrincipalInactive))
    else if resource.None? then Some(CauseName(ResourceMissing))
    else if resource.value.status != ACTIVE then Some(CauseName(ResourceInactive))
    else if !Allowed(c, s.Request()) then Some(CauseName(GrantNotApplicable))
    else None
  }

  predicate VerdictHolds(c: Catalogue, s: Scenario) {
    if s.decision == Some(ALLOW) then Allowed(c, s.Request()) && s.cause.None?
    else if s.decision == Some(DENY) then
      && !Allowed(c, s.Request())
      && s.cause.Some? && IsDenialCause(s.cause.value)
      && s.cause == ExpectedCause(c, s)
      && !(s.cause == Some(CauseName(ResourceMissing)) && ResourceOf(c.resources, s.kind, s.resource).Some?)
    else s.decision == Some("not_evaluated")
  }

  predicate ScenarioHolds(c: Catalogue, s: Scenario) {
    && s.action.Some? && s.action.value in c.actions
    && s.principal == s.Actor()
    && (s.payload.Some? ==> s.payload.value == Some("human"))
    && VerdictHolds(c, s)
  }

  predicate DeniesAdmin(s: Scenario) {
    s.principal == Some(ADMIN) && s.decision == Some(DENY)
  }

  ghost predicate ScenariosWellFormed(c: Catalogue, scenarios: seq<Scenario>) {
    && (forall i, j :: 0 <= i < j < |scenarios| ==> scenarios[i].id != scenarios[j].id)
    && (forall s :: s in scenarios ==> ScenarioHolds(c, s))
    && (exists s :: s in scenarios && DeniesAdmin(s))
  }

  /** Reading a missing field of an active allow grant raises. */
  predicate LacksField(g: Grant) {
    ActiveAllow(g) && (g.key.principal.None? || g.key.action.None? || g.key.kind.None? || g.key.id.None?)
  }

  datatype ScenarioError =
    | NoScenarios
    | DuplicateScenario(id: string)
    | UndeclaredScenarioAction(id: string)
    | WrongPrincipal(id: string)
    | PayloadNotHuman(id: string)
    | AllowWithoutGrant(id: string)
    | AllowNamesCause(id: string)
    | DenyDespiteGrant(id: string)
    | CauseOutsideTaxonomy(id: string)
    | CauseIsNotTheEngines(id: string)
    | DeclaredResourceCalledMissing(id: string)
    | UnknownDecision(id: string)
    | NothingDeniesAdmin

  datatype Outcome = Raised | Report(errors: seq<ScenarioError>)

  /** The errors about the stated decision and cause. */
  predicate VerdictViolates(c: Catalogue, s: Scenario, e: ScenarioError) {
    if s.decision == Some(ALLOW) then
      || (e == AllowWithoutGrant(s.id) && !Allowed(c, s.Request()))
      || (e == AllowNamesCause(s.id) && s.cause.Some?)
    else if s.decision == Some(DENY) then
      || (e == DenyDespiteGrant(s.id) && Allowed(c, s.Request()))
      || (e == CauseOutsideTaxonomy(s.id) && !(s.cause.Some? && IsDenialCause(s.cause.value)))
      || (e == CauseIsNotTheEngines(s.id) && s.cause != ExpectedCause(c, s))
      || (e == DeclaredResourceCalledMissing(s.id) && s.cause == Some(CauseName(ResourceMissing))
          && ResourceOf(c.resources, s.kind, s.resource).Some?)
    else e == UnknownDecision(s.id) && s.decision != Some("not_evaluated")
  }

  predicate ScenarioViolates(c: Catalogue, s: Scenario, e: ScenarioError) {
    || (e == UndeclaredScenarioAction(s.id) && (s.action.None? || s.action.value !in c.actions))
    || (e == WrongPrincipal(s.id) && s.principal != s.Actor())
    || (e == PayloadNotHuman(s.id) && s.payload.Some? && s.payload.value != Some("human"))
    || VerdictViolates(c, s, e)
  }

  ghost predicate IdRepeated(scenarios: seq<Scenario>, n: nat, id: string)
    requires n <= |scenarios|
  {
    exists i, j :: 0 <= i < j < n && scenarios[i].id == id && scenarios[j].id == id
  }

  /** What `check_scenarios` has to report, unless it raises. */
  ghost predicate ScenariosViolate(c: Catalogue, scenarios: seq<Scenario>, e: ScenarioError) {
    || (e == NoScenarios && scenarios == [])
    || (e == NothingDeniesAdmin && !exists s :: s in scenarios && DeniesAdmin(s))
    || (e.DuplicateScenario? && IdRepeated(scenarios, |scenarios|, e.id))
    || (exists s :: s in scenarios && ScenarioViolates(c, s, e))
  }

  /** `check_scenarios`: raises exactly on an incomplete active grant, otherwise reports exactly the
      violations; nothing exactly when every scenario holds, ids are unique and one scenario denies
      the administrative name. */
  method CheckScenarios(c: Catalogue, scenarios: seq<Scenario>) returns (r: Outcome)
    ensures r.Raised? <==> exists g :: g in c.grants && LacksField(g)
    ensures r.Report? ==> forall e :: e in r.errors <==> ScenariosViolate(c, scenarios, e)
    ensures r.Report? ==> (r.errors == [] <==> ScenariosWellFormed(c, scenarios))
  {
    if exists g :: g in c.grants && LacksField(g) {
      return Raised;
    }
    var entries := CheckEntries(c, scenarios);
    var denied := false;
    for i := 0 to |scenarios|
      invariant denied <==> exists j :: 0 <= j < i && DeniesAdmin(scenarios[j])
    {
      denied := denied || DeniesAdmin(scenarios[i]);
    }
    assert denied <==> exists s :: s in scenarios && DeniesAdmin(s);
    var none: seq<ScenarioError> := if scenarios == [] then [NoScenarios] else [];
    var admin: seq<ScenarioError> := if denied then [] else [NothingDeniesAdmin];
    var errors := none + entries + admin;
    ScenariosViolationFree(c, scenarios);
    r := Report(errors);
    assert errors != [] ==> errors[0] in errors;
  }

  /** The loop over the scenarios. */
  method CheckEntries(c: Catalogue, scenarios: seq<Scenario>) returns (errors: seq<ScenarioError>)
    ensures forall e :: e in errors <==>
      || (e.DuplicateScenario? && IdRepeated(scenarios, |scenarios|, e.id))
      || (exists s :: s in scenarios && ScenarioViolates(c, s, e))
  {
    errors := [];
    var ids: set<string> := {};
    for i := 0 to |scenarios|
      invariant forall id :: id in ids <==> exists j :: 0 <= j < i && scenarios[j].id == id
      invariant forall e :: e in errors <==>
        || (e.DuplicateScenario? && IdRepeated(scenarios, i, e.id))
        || (exists j :: 0 <= j < i && ScenarioViolates(c, scenarios[j], e))
    {
      var s := scenarios[i];
      IdsRepeatedGrow(scenarios, i);
      var found := CheckScenario(c, s, s.id in ids);
      errors := errors + found;
      ids := ids + {s.id};
    }
  }

  lemma IdsRepeatedGrow(scenarios: seq<Scenario>, i: nat)
    requires i < |scenarios|
    ensures forall id :: IdRepeated(scenarios, i + 1, id) <==>
      || IdRepeated(scenarios, i, id)
      || (id == scenarios[i].id && exists j :: 0 <= j < i && scenarios[j].id == id)
  {
    var id := scenarios[i].id;
    if j :| 0 <= j < i && scenarios[j].id == id {
      assert IdRepeated(scenarios, i + 1, id);
    }
  }

  /** Exactly the errors of one scenario, with its repeat. */
  method CheckScenario(c: Catalogue, s: Scenario, duplicate: bool) returns (errors: seq<ScenarioError>)
    ensures forall e :: e in errors <==> (e == DuplicateScenario(s.id) && duplicate) || ScenarioViolates(c, s, e)
  {
    errors := [];
    if duplicate { errors := errors + [DuplicateScenario(s.id)]; }
    if s.action.None? || s.action.value !in c.actions { errors := errors + [UndeclaredScenarioAction(s.id)]; }
    if s.principal != s.Actor() { errors := errors + [WrongPrincipal(s.id)]; }
    if s.payload.Some? && s.payload.value != Some("human") { errors := errors + [PayloadNotHuman(s.id)]; }
    var verdict := CheckVerdict(c, s);
    errors := errors + verdict;
  }

  /** Exactly the errors about the stated decision and cause. */
  method CheckVerdict(c: Catalogue, s: Scenario) returns (errors: seq<ScenarioError>)
    ensures forall e :: e in errors <==> VerdictViolates(c, s, e)
  {
    errors := [];
    var cause := ExpectedCause(c, s);
    if s.decision == Some(ALLOW) {
      if !Allowed(c, s.Request()) { errors := errors + [AllowWithoutGrant(s.id)]; }
      if s.cause.Some? { errors := errors + [AllowNamesCause(s.id)]; }
    } else if s.decision == Some(DENY) {
      if Allowed(c, s.Request()) { errors := errors + [DenyDespiteGrant(s.id)]; }
      if s.cause.None? || !IsDenialCause(s.cause.value) { errors := errors + [CauseOutsideTaxonomy(s.id)]; }
      if s.cause != cause { errors := errors + [CauseIsNotTheEngines(s.id)]; }
      if s.cause == Some(CauseName(ResourceMissing)) && ResourceOf(c.resources, s.kind, s.resource).Some? {
        errors := errors + [DeclaredResourceCalledMissing(s.id)];
      }
    } else if s.decision != Some("not_evaluated") {
      errors := errors + [UnknownDecision(s.id)];
    }
  }

  lemma ScenarioViolationFree(c: Catalogue, s: Scenario)
    ensures (forall e :: !ScenarioViolates(c, s, e)) <==> ScenarioHolds(c, s)
  {
    if forall e :: !ScenarioViolates(c, s, e) {
      assert !ScenarioViolates(c, s, UndeclaredScenarioAction(s.id)) && !ScenarioViolates(c, s, WrongPrincipal(s.id));
      assert !ScenarioViolates(c, s, PayloadNotHuman(s.id)) && !ScenarioViolates(c, s, AllowWithoutGrant(s.id));
      assert !ScenarioViolates(c, s, AllowNamesCause(s.id)) && !ScenarioViolates(c, s, DenyDespiteGrant(s.id));
      assert !ScenarioViolates(c, s, CauseOutsideTaxonomy(s.id)) && !ScenarioViolates(c, s, CauseIsNotTheEngines(s.id));
      assert !ScenarioViolates(c, s, DeclaredResourceCalledMissing(s.id))
        && !ScenarioViolates(c, s, UnknownDecision(s.id));
    }
  }

  /** No error applies exactly when the scenarios are well-formed. */
  lemma ScenariosViolationFree(c: Catalogue, scenarios: seq<Scenario>)
    ensures (forall e :: !ScenariosViolate(c, scenarios, e)) <==> ScenariosWellFormed(c, scenarios)
  {
    forall s | s in scenarios
      ensures (forall e :: !ScenarioViolates(c, s, e)) <==> ScenarioHolds(c, s)
    {
      ScenarioViolationFree(c, s);
    }
    if forall e :: !ScenariosViolate(c, scenarios, e) {
      assert !ScenariosViolate(c, scenarios, NothingDeniesAdmin);
      forall i, j | 0 <= i < j < |scenarios|
        ensures scenarios[i].id != scenarios[j].id
      {
        assert !ScenariosViolate(c, scenarios, DuplicateScenario(scenarios[i].id));
      }
      forall s, e | s in scenarios
        ensures !ScenarioViolates(c, s, e)
      {
        assert !ScenariosViolate(c, scenarios, e);
      }
    } else {
      var e :| ScenariosViolate(c, scenarios, e);
      assert !ScenariosWellFormed(c, scenarios);
    }
  }

  // ------------------------------------------------------------------ agreement with the engine

  /** The cause computed by the scenario check is the engine's. */
  lemma ExpectedCauseIsTheEngines(c: Catalogue, s: Scenario)
    ensures ExpectedCause(c, s) ==
      match Engine(c, s.Request()) case Allow => None case Deny(cause) => Some(CauseName(cause))
  {
  }

  /** Exactly when an accepted scenario states the engine's decision and cause: always for a
      denial, and for an allow when the engine's principal and resource facts are active. */
  lemma AcceptedScenarioMatchesEngineIff(c: Catalogue, s: Scenario)
    requires ScenarioHolds(c, s)
    ensures s.decision == Some(DENY) ==>
      Engine(c, s.Request()).Deny? && s.cause == Some(CauseName(Engine(c, s.Request()).cause))
    ensures s.decision == Some(ALLOW) ==>
      (Engine(c, s.Request()) == Allow <==>
        && PrincipalOf(c.principals, s.Actor()).Some?
        && PrincipalOf(c.principals, s.Actor()).value.status == ACTIVE
        && ResourceOf(c.resources, s.kind, s.resource).Some?
        && ResourceOf(c.resources, s.kind, s.resource).value.status == ACTIVE)
  {
    ExpectedCauseIsTheEngines(c, s);
    assert ALLOW != DENY by {
      assert |ALLOW| == 5 && |DENY| == 4;
    }
  }

  /** With both checks clean, every allow or deny scenario states exactly the engine's decision,
      and a denial exactly its cause. */
  lemma BothChecksForceTheEngine(c: Catalogue, s: Scenario)
    requires GrantsWellFormed(c) && ScenarioHolds(c, s)
    requires s.decision in {Some(ALLOW), Some(DENY)}
    ensures s.decision == Some(ALLOW) <==> Engine(c, s.Request()) == Allow
    ensures s.cause == match Engine(c, s.Request()) case Allow => None case Deny(cause) => Some(CauseName(cause))
  {
    AcceptedScenarioMatchesEngineIff(c, s);
    assert ALLOW != DENY by {
      assert |ALLOW| == 5 && |DENY| == 4;
    }
    if s.decision == Some(ALLOW) {
      var g :| g in c.grants && ActiveAllow(g) && g.key == s.Request();
      assert GrantWellFormed(c, g);
      assert NotInactivePrincipal(c, s.Actor()) && NotInactiveResource(c, s.kind, s.resource);
    }
  }

  /** Without the grant check an allow may be wrong: the principal of this matching grant is not
      active. */
  lemma ScenarioCheckAloneIsNotEnough() returns (c: Catalogue, s: Scenario)
    ensures ScenarioHolds(c, s) && s.decision == Some(ALLOW)
    ensures Engine(c, s.Request()) == Deny(PrincipalInactive)
  {
    var key := Key(Some("h"), Some("a"), Some("k"), Some("r"));
    var grant := Grant(key, Some(ALLOW), Some(ACTIVE));
    c := Catalogue([Principal("h", "revoked")], [Resource("k", "r", ACTIVE)], ["a"], [grant]);
    s := Scenario("s", Some("h"), None, Some("a"), Some("k"), Some("r"), None, Some(ALLOW), None);
    assert c.grants[0] in c.grants && ActiveAllow(c.grants[0]) && c.grants[0].key == s.Request();
    assert "revoked" != ACTIVE by {
      assert |"revoked"| == 7 && |ACTIVE| == 6;
    }
  }

  /** A clean grant check leaves only one reason to deny a declared principal on a declared
      resource: no exact grant. */
  lemma OnlyTheGrantDecides(c: Catalogue, key: Key)
    requires GrantsWellFormed(c)
    ensures Engine(c, key) == Allow <==> Allowed(c, key)
  {
    if Allowed(c, key) {
      var g :| g in c.grants && ActiveAllow(g) && g.key == key;
      assert GrantWellFormed(c, g);
      assert NotInactivePrincipal(c, key.principal) && NotInactiveResource(c, key.kind, key.id);
    }
  }

  /** A name confers nothing: the names check is clean exactly when the engine denies the
      administrative principal every action on every resource. */
  lemma AdministrativeNameIsDeniedEverything(c: Catalogue)
    requires GrantsWellFormed(c)
    ensures NamesConferNothing(c) <==> forall key: Key :: key.principal == Some(ADMIN) ==> Engine(c, key).Deny?
  {
    forall key: Key
      ensures Engine(c, key) == Allow <==> Allowed(c, key)
    {
      OnlyTheGrantDecides(c, key);
    }
    forall g | g in c.grants
      ensures Allowed(c, g.key)
    {
      assert GrantWellFormed(c, g);
    }
  }

  // ------------------------------------------------------------------ what it means, field by field

  /** A listed grant names exactly this principal, action, resource type and resource, allows and is
      active. */
  predicate ExactGrant(c: Catalogue, p: string, a: string, k: string, r: string) {
    exists g :: g in c.grants
      && g.key.principal == Some(p) && g.key.action == Some(a) && g.key.kind == Some(k) && g.key.id == Some(r)
      && g.effect == Some("allow") && g.status == Some("active")
  }

  /** The last entry of this principal has this status. */
  predicate PrincipalIs(c: Catalogue, p: string, status: string) {
    exists i :: 0 <= i < |c.principals| && LastPrincipal(c.principals, i, p) && c.principals[i].status == status
  }

  predicate LastPrincipal(ps: seq<Principal>, i: nat, p: string)
    requires i < |ps|
  {
    ps[i].id == p && forall j :: i < j < |ps| ==> ps[j].id != p
  }

  predicate ResourceIs(c: Catalogue, k: string, r: string, status: string) {
    exists i :: 0 <= i < |c.resources| && LastResource(c.resources, i, k, r) && c.resources[i].status == status
  }

  predicate LastResource(rs: seq<Resource>, i: nat, k: string, r: string)
    requires i < |rs|
  {
    rs[i].kind == k && rs[i].id == r && forall j :: i < j < |rs| ==> !(rs[j].kind == k && rs[j].id == r)
  }

  lemma {:induction false} PrincipalOfSays(ps: seq<Principal>, p: string)
    ensures PrincipalOf(ps, Some(p)).None? <==> forall i :: 0 <= i < |ps| ==> ps[i].id != p
    ensures PrincipalOf(ps, Some(p)).Some? ==>
      exists i :: 0 <= i < |ps| && LastPrincipal(ps, i, p) && ps[i] == PrincipalOf(ps, Some(p)).value
    decreases |ps|
  {
    if ps == [] {
    } else {
      var n, shorter := |ps| - 1, ps[..|ps| - 1];
      if ps[n].id == p {
        assert LastPrincipal(ps, n, p);
      } else {
        PrincipalOfSays(shorter, p);
        if PrincipalOf(ps, Some(p)).Some? {
          var i :| 0 <= i < |shorter| && LastPrincipal(shorter, i, p) && shorter[i] == PrincipalOf(ps, Some(p)).value;
          assert LastPrincipal(ps, i, p);
        }
      }
    }
  }

  lemma {:induction false} ResourceOfSays(rs: seq<Resource>, k: string, r: string)
    ensures ResourceOf(rs, Some(k), Some(r)).None? <==>
      forall i :: 0 <= i < |rs| ==> !(rs[i].kind == k && rs[i].id == r)
    ensures ResourceOf(rs, Some(k), Some(r)).Some? ==>
      exists i :: 0 <= i < |rs| && LastResource(rs, i, k, r) && rs[i] == ResourceOf(rs, Some(k), Some(r)).value
    decreases |rs|
  {
    if rs == [] {
    } else {
      var n, shorter := |rs| - 1, rs[..|rs| - 1];
      if rs[n].kind == k && rs[n].id == r {
        assert LastResource(rs, n, k, r);
      } else {
        ResourceOfSays(shorter, k, r);
        assert forall i :: 0 <= i < n ==> shorter[i] == rs[i];
        var found := ResourceOf(rs, Some(k), Some(r));
        if found.Some? {
          var i :| 0 <= i < |shorter| && LastResource(shorter, i, k, r) && shorter[i] == found.value;
          assert LastResource(rs, i, k, r);
        }
      }
    }
  }

  lemma PrincipalStatus(c: Catalogue, p: string, status: string)
    ensures PrincipalIs(c, p, status) <==>
      PrincipalOf(c.principals, Some(p)).Some? && PrincipalOf(c.principals, Some(p)).value.status == status
  {
    PrincipalOfSays(c.principals, p);
    if PrincipalOf(c.principals, Some(p)).Some? {
      var i :| 0 <= i < |c.principals| && LastPrincipal(c.principals, i, p)
        && c.principals[i] == PrincipalOf(c.principals, Some(p)).value;
      forall j | 0 <= j < |c.principals| && LastPrincipal(c.principals, j, p)
        ensures j == i
      {
      }
    }
  }

  lemma ResourceStatus(c: Catalogue, k: string, r: string, status: string)
    ensures ResourceIs(c, k, r, status) <==>
      && ResourceOf(c.resources, Some(k), Some(r)).Some?
      && ResourceOf(c.resources, Some(k), Some(r)).value.status == status
  {
    ResourceOfSays(c.resources, k, r);
    var found := ResourceOf(c.resources, Some(k), Some(r));
    if found.Some? {
      var i :| 0 <= i < |c.resources| && LastResource(c.resources, i, k, r) && c.resources[i] == found.value;
      forall j | 0 <= j < |c.resources| && LastResource(c.resources, j, k, r)
        ensures j == i
      {
      }
    }
  }

  lemma AllowedSays(c: Catalogue, p: string, a: string, k: string, r: string)
    ensures Allowed(c, Key(Some(p), Some(a), Some(k), Some(r))) <==> ExactGrant(c, p, a, k, r)
  {
    if ExactGrant(c, p, a, k, r) {
      var g :| g in c.grants
        && g.key.principal == Some(p) && g.key.action == Some(a) && g.key.kind == Some(k) && g.key.id == Some(r)
        && g.effect == Some("allow") && g.status == Some("active");
      assert g.key == Key(Some(p), Some(a), Some(k), Some(r));
    }
  }

  /** Every decision of the engine, over the entries of the catalogue: it allows exactly an active
      principal, on an active resource, what an exact active grant allows; and each denial has its own
      cause, in a fixed order. */
  lemma EngineDecides(c: Catalogue, p: string, a: string, k: string, r: string)
    ensures var d := Engine(c, Key(Some(p), Some(a), Some(k), Some(r)));
      && (d == Allow <==>
            PrincipalIs(c, p, "active") && ResourceIs(c, k, r, "active") && ExactGrant(c, p, a, k, r))
      && (d == Deny(PrincipalInactive) <==> !PrincipalIs(c, p, "active"))
      && (d == Deny(ResourceMissing) <==>
            && PrincipalIs(c, p, "active")
            && forall i :: 0 <= i < |c.resources| ==> !(c.resources[i].kind == k && c.resources[i].id == r))
      && (d == Deny(ResourceInactive) <==>
            && PrincipalIs(c, p, "active") && !ResourceIs(c, k, r, "active")
            && exists i :: 0 <= i < |c.resources| && c.resources[i].kind == k && c.resources[i].id == r)
  {
    PrincipalStatus(c, p, "active");
    ResourceStatus(c, k, r, "active");
    ResourceOfSays(c.resources, k, r);
    AllowedSays(c, p, a, k, r);
  }

  /** Who a scenario is about: the authenticated principal, if it is given, or the principal. */
  predicate IsAbout(s: Scenario, p: string, a: string, k: string, r: string) {
    && (s.authenticated == Some(Some(p)) || (s.authenticated.None? && s.principal == Some(p)))
    && s.action == Some(a) && s.kind == Some(k) && s.resource == Some(r)
  }

  /** The errors about a scenario's decision, over the entries of the catalogue. */
  lemma VerdictErrorsSay(c: Catalogue, s: Scenario, p: string, a: string, k: string, r: string)
    requires IsAbout(s, p, a, k, r)
    ensures VerdictViolates(c, s, AllowWithoutGrant(s.id)) <==>
      s.decision == Some("allow") && !ExactGrant(c, p, a, k, r)
    ensures VerdictViolates(c, s, AllowNamesCause(s.id)) <==> s.decision == Some("allow") && s.cause.Some?
    ensures VerdictViolates(c, s, DenyDespiteGrant(s.id)) <==>
      s.decision == Some("deny") && ExactGrant(c, p, a, k, r)
    ensures VerdictViolates(c, s, CauseOutsideTaxonomy(s.id)) <==>
      && s.decision == Some("deny")
      && s.cause !in {Some("principal_inactive"), Some("resource_missing"), Some("resource_inactive"),
                      Some("grant_not_applicable")}
    ensures VerdictViolates(c, s, UnknownDecision(s.id)) <==>
      s.decision !in {Some("allow"), Some("deny"), Some("not_evaluated")}
  {
    AllowedSays(c, p, a, k, r);
    assert s.Request() == Key(Some(p), Some(a), Some(k), Some(r));
    DecisionsDiffer();
    if s.cause.Some? {
      DenialCausesAre(s.cause.value);
    }
  }

  lemma DecisionsDiffer()
    ensures ALLOW != DENY && ALLOW != "not_evaluated" && DENY != "not_evaluated"
  {
    assert |ALLOW| == 5 && |DENY| == 4 && |"not_evaluated"| == 13;
  }

  lemma DenialCausesAre(name: string)
    ensures IsDenialCause(name) <==>
      name in {"principal_inactive", "resource_missing", "resource_inactive", "grant_not_applicable"}
  {
    assert CauseName(PrincipalInactive) == "principal_inactive" && CauseName(ResourceMissing) == "resource_missing";
    assert CauseName(ResourceInactive) == "resource_inactive";
    assert CauseName(GrantNotApplicable) == "grant_not_applicable";
  }

  /** The cause a denial must name, over the entries of the catalogue. */
  lemma CauseErrorSays(c: Catalogue, s: Scenario, p: string, a: string, k: string, r: string)
    requires IsAbout(s, p, a, k, r) && s.decision == Some("deny")
    ensures VerdictViolates(c, s, CauseIsNotTheEngines(s.id)) <==>
      s.cause !=
        if !PrincipalIs(c, p, "active") then Some("principal_inactive")
        else if forall i :: 0 <= i < |c.resources| ==> !(c.resources[i].kind == k && c.resources[i].id == r) then
          Some("resource_missing")
        else if !ResourceIs(c, k, r, "active") then Some("resource_inactive")
        else if !ExactGrant(c, p, a, k, r) then Some("grant_not_applicable")
        else None
  {
    assert s.Request() == Key(Some(p), Some(a), Some(k), Some(r));
    DecisionsDiffer();
    ExpectedCauseIsTheEngines(c, s);
    EngineDecides(c, p, a, k, r);
  }

  /** The errors about a grant, over the entries of the catalogue. */
  lemma GrantErrorsSay(c: Catalogue, g: Grant, i: nat)
    ensures GrantViolates(c, g, i, UndeclaredPrincipal(i)) <==>
      forall j :: 0 <= j < |c.principals| ==> g.key.principal != Some(c.principals[j].id)
    ensures GrantViolates(c, g, i, UndeclaredAction(i)) <==>
      forall j :: 0 <= j < |c.actions| ==> g.key.action != Some(c.actions[j])
    ensures GrantViolates(c, g, i, UndeclaredResource(i)) <==>
      forall j :: 0 <= j < |c.resources| ==>
        !(g.key.kind == Some(c.resources[j].kind) && g.key.id == Some(c.resources[j].id))
    ensures GrantViolates(c, g, i, NotAnAllow(i)) <==> g.effect != Some("allow")
    ensures GrantViolates(c, g, i, NotActive(i)) <==> g.status != Some("active")
  {
    if g.key.principal.Some? {
      PrincipalOfSays(c.principals, g.key.principal.value);
    } else if PrincipalOf(c.principals, None).Some? {
      PrincipalIsListed(c.principals, None);
    }
    if g.key.kind.Some? && g.key.id.Some? {
      ResourceOfSays(c.resources, g.key.kind.value, g.key.id.value);
    } else if ResourceOf(c.resources, g.key.kind, g.key.id).Some? {
      ResourceIsListed(c.resources, g.key.kind, g.key.id);
    }
  }

  /** The errors about the rest of the matrix. */
  lemma MatrixErrorsSay(c: Catalogue, i: nat, k: string, id: string)
    ensures GrantsViolate(c, DuplicateGrant(i)) <==>
      i < |c.grants| && exists j :: 0 <= j < i && c.grants[j].key == c.grants[i].key
    ensures PrincipalViolates(c, InactivePrincipal(id)) <==>
      && (exists j :: 0 <= j < |c.principals| && c.principals[j].id == id) && !PrincipalIs(c, id, "active")
    ensures ResourceViolates(c, InactiveResource(k, id)) <==>
      && (exists j :: 0 <= j < |c.resources| && c.resources[j].kind == k && c.resources[j].id == id)
      && !ResourceIs(c, k, id, "active")
  {
    PrincipalOfSays(c.principals, id);
    PrincipalStatus(c, id, "active");
    ResourceOfSays(c.resources, k, id);
    ResourceStatus(c, k, id, "active");
  }

  /** The other errors about scenarios, over their fields. */
  lemma ScenarioErrorsSay(c: Catalogue, s: Scenario)
    ensures ScenarioViolates(c, s, UndeclaredScenarioAction(s.id)) <==>
      forall j :: 0 <= j < |c.actions| ==> s.action != Some(c.actions[j])
    ensures ScenarioViolates(c, s, WrongPrincipal(s.id)) <==>
      s.authenticated.Some? && s.authenticated.value != s.principal
    ensures ScenarioViolates(c, s, PayloadNotHuman(s.id)) <==>
      s.payload.Some? && s.payload.value != Some("human")
  {
  }

  /** The errors about the scenarios together. */
  lemma ScenarioListErrorsSay(c: Catalogue, scenarios: seq<Scenario>, id: string)
    ensures ScenariosViolate(c, scenarios, NoScenarios) <==> scenarios == []
    ensures ScenariosViolate(c, scenarios, NothingDeniesAdmin) <==>
      !exists i :: 0 <= i < |scenarios|
        && scenarios[i].principal == Some("admin-human") && scenarios[i].decision == Some("deny")
    ensures ScenariosViolate(c, scenarios, DuplicateScenario(id)) <==>
      exists i, j :: 0 <= i < j < |scenarios| && scenarios[i].id == id && scenarios[j].id == id
  {
    if s :| s in scenarios && DeniesAdmin(s) {
      var i :| 0 <= i < |scenarios| && scenarios[i] == s;
      assert scenarios[i].principal == Some("admin-human");
    }
    if i :| 0 <= i < |scenarios|
            && scenarios[i].principal == Some("admin-human") && scenarios[i].decision == Some("deny") {
      assert DeniesAdmin(scenarios[i]);
    }
  }

  /** What makes the scenario check raise: an active allow without one of its four fields. */
  lemma RaisingGrantSays(g: Grant)
    ensures LacksField(g) <==>
      && g.effect == Some("allow") && g.status == Some("active")
      && (g.key.principal == None || g.key.action == None || g.key.kind == None || g.key.id == None)
  {
  }

  /** With both checks clean, over the entries: a scenario that is allowed or denied is allowed exactly
      when an exact active grant is listed, and a denial names an undeclared principal, else a missing
      resource, else the missing grant. */
  lemma CleanScenariosSay(c: Catalogue, s: Scenario, p: string, a: string, k: string, r: string)
    requires GrantsWellFormed(c) && ScenarioHolds(c, s) && IsAbout(s, p, a, k, r)
    requires s.decision == Some("allow") || s.decision == Some("deny")
    ensures s.decision == Some("allow") <==> ExactGrant(c, p, a, k, r)
    ensures s.cause ==
      if s.decision == Some("allow") then None
      else if forall i :: 0 <= i < |c.principals| ==> c.principals[i].id != p then Some("principal_inactive")
      else if forall i :: 0 <= i < |c.resources| ==> !(c.resources[i].kind == k && c.resources[i].id == r) then
        Some("resource_missing")
      else Some("grant_not_applicable")
  {
    assert s.Request() == Key(Some(p), Some(a), Some(k), Some(r));
    BothChecksForceTheEngine(c, s);
    OnlyTheGrantDecides(c, s.Request());
    AllowedSays(c, p, a, k, r);
    DecisionsDiffer();
    PrincipalOfSays(c.principals, p);
    ResourceOfSays(c.resources, k, r);
    assert NotInactivePrincipal(c, Some(p)) && NotInactiveResource(c, Some(k), Some(r));
  }
}
