/** Migrating the operation CHECK of the append-only audit table (`migrations/env.py`).

Sibling branches each replaced the CHECK by their own list of operations. An upgrade across the
branches therefore meets rows that an intermediate list does not admit. The guarded upgrade adds
the narrower legacy lists NOT VALID and commits only on the target head with a validated CHECK.

PostgreSQL DDL is transactional: a failing migration leaves the state it started from. */
module AuditMigration {
  import opened AuditOperations
  import opened RevisionGraph

  /** What one revision does to the operation CHECK. `restored` is what its downgrade creates and
      `guard` the operations whose rows make its downgrade refuse. */
  datatype CheckEdit =
    | Keeps
    | CreatesTable(created: Check)
    | Replaces(created: Check, restored: Check, guard: set<Operation>)

  type AuditHistory = History<CheckEdit>

  /** The database as a committed transaction leaves it. Before the table exists there are no
      rows and no operation is admitted. */
  datatype State = State(applied: set<RevisionId>, rows: seq<Operation>, check: Check, validated: bool)

  datatype Outcome = Committed(state: State) | RolledBack

  function Empty(): State {
    State({}, [], [], true)
  }

  predicate Admits(check: Check, rows: seq<Operation>) {
    forall i :: 0 <= i < |rows| ==> rows[i] in check
  }

  function Created(edit: CheckEdit): Check {
    if edit.Keeps? then [] else edit.created
  }

  /** Some applied revision declared the operation. */
  ghost predicate Declared(h: AuditHistory, applied: set<RevisionId>, op: Operation)
    requires forall r :: r in applied ==> r < |h|
  {
    exists r :: r in applied && op in Created(h[r].edit)
  }

  // ------------------------------------------------------------------ transitions

  function Insert(s: State, op: Operation): Outcome {
    if op in s.check then Committed(s.(rows := s.rows + [op])) else RolledBack
  }

  /** One upgrade step. A CHECK whose text is in `deferred` is added NOT VALID, any other is
      validated by scanning the rows, and a violating row fails the transaction. */
  function StepUp(h: AuditHistory, deferred: set<Check>, s: State, r: RevisionId): Outcome
    requires r < |h|
  {
    var next := s.(applied := s.applied + {r});
    match h[r].edit
    case Keeps => Committed(next)
    case CreatesTable(created) => Committed(next.(rows := [], check := created, validated := true))
    case Replaces(created, _, _) =>
      if created in deferred then Committed(next.(check := created, validated := false))
      else if Admits(created, s.rows) then Committed(next.(check := created, validated := true))
      else RolledBack
  }

  function RunUp(h: AuditHistory, deferred: set<Check>, s: State, plan: seq<RevisionId>): Outcome
    decreases |plan|
  {
    if plan == [] then Committed(s)
    else if plan[0] >= |h| then RolledBack
    else
      match StepUp(h, deferred, s, plan[0])
      case Committed(next) => RunUp(h, deferred, next, plan[1..])
      case RolledBack => RolledBack
  }

  /** Any order of the missing ancestors of the target that respects the dependencies. */
  ghost predicate UpgradePlan(h: AuditHistory, applied: set<RevisionId>, target: RevisionId, plan: seq<RevisionId>)
    requires WellOrdered(h) && target < |h|
  {
    && (forall r :: r in plan <==> r in Ancestors(h, target) && r !in applied)
    && Runnable(h, applied, plan)
  }

  /** Each revision is new and comes after its parents. */
  ghost predicate Runnable(h: AuditHistory, applied: set<RevisionId>, plan: seq<RevisionId>)
    requires WellOrdered(h)
    decreases |plan|
  {
    plan != [] ==>
      && plan[0] < |h|
      && plan[0] !in applied
      && h[plan[0]].parents <= applied
      && Runnable(h, applied + {plan[0]}, plan[1..])
  }

  /** One downgrade step: the guard query, then the restored CHECK, validated as always.
      `othersPass` stands for the guards on other tables and columns. Undoing the first revision
      drops the table. */
  function StepDown(h: AuditHistory, s: State, r: RevisionId, othersPass: bool): Outcome
    requires r < |h|
  {
    var next := s.(applied := s.applied - {r});
    if !othersPass then RolledBack else
    match h[r].edit
    case Keeps => Committed(next)
    case CreatesTable(_) => Committed(next.(rows := [], check := [], validated := true))
    case Replaces(_, restored, guard) =>
      if exists op :: op in guard && op in s.rows then RolledBack
      else if Admits(restored, s.rows) then Committed(next.(check := restored, validated := true))
      else RolledBack
  }

  datatype Undo = Undo(revision: RevisionId, othersPass: bool)

  function RunDown(h: AuditHistory, s: State, undos: seq<Undo>): Outcome
    decreases |undos|
  {
    if undos == [] then Committed(s)
    else if undos[0].revision >= |h| then RolledBack
    else
      match StepDown(h, s, undos[0].revision, undos[0].othersPass)
      case Committed(next) => RunDown(h, next, undos[1..])
      case RolledBack => RolledBack
  }

  /** Only a revision that nothing applied builds on is undone. */
  ghost predicate Undoable(h: AuditHistory, applied: set<RevisionId>, undos: seq<Undo>)
    requires WellOrdered(h) && DownwardClosed(h, applied)
    decreases |undos|
  {
    undos != [] ==>
      && undos[0].revision in Heads(h, applied)
      && DownwardClosed(h, applied - {undos[0].revision})
      && Undoable(h, applied - {undos[0].revision}, undos[1..])
  }

  // ------------------------------------------------------------------ the guarded upgrade

  /** The revisions `env.py` names: the union head and the revisions whose CHECKs are legacy. */
  datatype Integration = Integration(union: RevisionId, legacy: set<RevisionId>)

  predicate Configured(h: AuditHistory, cfg: Integration) {
    cfg.union < |h| && forall r :: r in cfg.legacy ==> r < |h|
  }

  function LegacyChecks(h: AuditHistory, cfg: Integration): set<Check>
    requires Configured(h, cfg)
  {
    (set r | r in cfg.legacy :: Created(h[r].edit)) - {Created(h[cfg.union].edit)}
  }

  datatype Route = Plain | Guarded(deferred: set<Check>)

  /** `integrated_upgrade`: only a forward move to the union head or beyond takes the guard. */
  function IntegratedUpgrade(h: AuditHistory, cfg: Integration, heads: set<RevisionId>, target: RevisionId): Route
    requires WellOrdered(h) && target < |h|
    requires Configured(h, cfg)
  {
    if cfg.union !in Ancestors(h, target) then Plain
    else if heads == {target} || !(heads <= Ancestors(h, target)) then Plain
    else Guarded(LegacyChecks(h, cfg))
  }

  /** `run_migrations_online` for an upgrade. */
  function Upgrade(h: AuditHistory, cfg: Integration, s: State, target: RevisionId, plan: seq<RevisionId>): Outcome
    requires WellOrdered(h) && target < |h|
    requires Configured(h, cfg)
  {
    match IntegratedUpgrade(h, cfg, Heads(h, s.applied), target)
    case Plain => RunUp(h, {}, s, plan)
    case Guarded(deferred) =>
      var ran := RunUp(h, deferred, s, plan);
      if ran.RolledBack? then RolledBack
      else if Heads(h, ran.state.applied) == {target} && ran.state.validated then ran
      else RolledBack
  }

  // ------------------------------------------------------------------ what a history must satisfy

  /** Every operation a revision outside the descendants of `r` declares. */
  ghost predicate DeclaredBeside(h: AuditHistory, r: RevisionId, q: RevisionId, op: Operation)
    requires WellOrdered(h) && r < |h| && q < |h|
  {
    (q == r || r !in Ancestors(h, q)) && op in Created(h[q].edit)
  }

  ghost predicate OneTable(h: AuditHistory)
    requires WellOrdered(h)
  {
    forall r :: 0 <= r < |h| ==> (h[r].edit.CreatesTable? <==> r == 0)
  }

  /** A CHECK on the validating path admits whatever can have been declared before it runs. */
  ghost predicate ValidatedChecksAreWide(h: AuditHistory, deferred: set<Check>)
    requires WellOrdered(h)
  {
    forall r, q, op {:trigger DeclaredBeside(h, r, q, op)} ::
      && 0 <= r < |h| && 0 <= q < |h|
      && h[r].edit.Replaces? && h[r].edit.created !in deferred
      && DeclaredBeside(h, r, q, op)
      ==> op in h[r].edit.created
  }

  /** Deferred CHECKs all precede the union head, whose own CHECK is validated. */
  ghost predicate UnionClosesTheDeferral(h: AuditHistory, union: RevisionId, deferred: set<Check>)
    requires WellOrdered(h) && union < |h|
  {
    && h[union].edit.Replaces?
    && h[union].edit.created !in deferred
    && forall r :: 0 <= r < |h| && h[r].edit.Replaces? && h[r].edit.created in deferred ==> r in Ancestors(h, union)
  }

  /** A downgrade restores only operations its ancestors declared. */
  ghost predicate RestoresAreDeclared(h: AuditHistory)
    requires WellOrdered(h)
  {
    forall r, op {:trigger op in h[r].edit.restored} ::
      0 <= r < |h| && h[r].edit.Replaces? && op in h[r].edit.restored ==>
        exists a :: a in Ancestors(h, r) && a != r && op in Created(h[a].edit)
  }

  /** The guard of `r` covers everything its narrower CHECK would lose. */
  ghost predicate GuardIsComplete(h: AuditHistory, r: RevisionId)
    requires WellOrdered(h) && r < |h|
  {
    h[r].edit.Replaces? ==>
      forall q, op {:trigger DeclaredBeside(h, r, q, op)} ::
        0 <= q < |h| && DeclaredBeside(h, r, q, op) ==> op in h[r].edit.restored || op in h[r].edit.guard
  }

  ghost predicate Sound(h: AuditHistory, cfg: Integration) {
    && WellOrdered(h)
    && Configured(h, cfg)
    && OneTable(h)
    && ValidatedChecksAreWide(h, LegacyChecks(h, cfg))
    && UnionClosesTheDeferral(h, cfg.union, LegacyChecks(h, cfg))
    && RestoresAreDeclared(h)
  }

  /** What every commit must leave: a validated CHECK that all rows satisfy and that admits only
      operations the applied revisions declared. */
  ghost predicate Consistent(h: AuditHistory, s: State)
    requires WellOrdered(h)
  {
    && DownwardClosed(h, s.applied)
    && s.validated
    && Admits(s.check, s.rows)
    && forall op :: op in s.check ==> Declared(h, s.applied, op)
  }

  /** What an upgrade may find, more than a commit leaves: the rows come from the vocabularies of
      applied revisions, whichever of them set the live CHECK, and the CHECK may still be NOT
      VALID while the union head is missing. */
  ghost predicate Upgradable(h: AuditHistory, union: RevisionId, s: State)
    requires WellOrdered(h)
  {
    && DownwardClosed(h, s.applied)
    && RowsDeclared(h, s.applied, s.rows)
    && (forall op :: op in s.check ==> Declared(h, s.applied, op))
    && (s.validated ==> Admits(s.check, s.rows))
    && (union in s.applied ==> s.validated)
  }

  // ------------------------------------------------------------------ upgrades

  /** Rows only hold operations that some applied revision declared. */
  ghost predicate RowsDeclared(h: AuditHistory, applied: set<RevisionId>, rows: seq<Operation>)
    requires forall r :: r in applied ==> r < |h|
  {
    forall i :: 0 <= i < |rows| ==> Declared(h, applied, rows[i])
  }

  /** The rows of a database where a revision is missing pass that revision's validated CHECK. */
  lemma MissingWideCheckAdmitsRows(h: AuditHistory, deferred: set<Check>, applied: set<RevisionId>,
      rows: seq<Operation>, r: RevisionId)
    requires WellOrdered(h) && DownwardClosed(h, applied) && r < |h| && r !in applied
    requires RowsDeclared(h, applied, rows)
    requires ValidatedChecksAreWide(h, deferred)
    requires h[r].edit.Replaces? && h[r].edit.created !in deferred
    ensures Admits(h[r].edit.created, rows)
  {
    forall i | 0 <= i < |rows|
      ensures rows[i] in h[r].edit.created
    {
      assert Declared(h, applied, rows[i]);
      var q :| q in applied && rows[i] in Created(h[q].edit);
      ClosedSetsHoldAncestors(h, applied, q);
      assert DeclaredBeside(h, r, q, rows[i]);
    }
  }

  lemma {:induction false} RunnableRevisionsExist(h: AuditHistory, applied: set<RevisionId>, plan: seq<RevisionId>)
    requires WellOrdered(h) && Runnable(h, applied, plan)
    ensures forall i :: 0 <= i < |plan| ==> plan[i] < |h|
    decreases |plan|
  {
    if plan == [] {
    } else {
      RunnableRevisionsExist(h, applied + {plan[0]}, plan[1..]);
      forall i | 0 <= i < |plan|
        ensures plan[i] < |h|
      {
        assert i > 0 ==> plan[i] == plan[1..][i - 1];
      }
    }
  }

  /** A run of upgrade steps keeps the rows, applies exactly the plan and, once the union head is
      applied, ends validated. `declared` is what was applied when the rows were written. */
  lemma {:induction false} DeferredRunCommits(h: AuditHistory, union: RevisionId, deferred: set<Check>,
      declared: set<RevisionId>, s: State, plan: seq<RevisionId>) returns (end: State)
    requires WellOrdered(h) && OneTable(h) && union < |h|
    requires ValidatedChecksAreWide(h, deferred)
    requires UnionClosesTheDeferral(h, union, deferred)
    requires DownwardClosed(h, s.applied) && Runnable(h, s.applied, plan)
    requires DownwardClosed(h, declared) && declared <= s.applied && RowsDeclared(h, declared, s.rows)
    requires union in s.applied ==> s.validated
    requires s.validated ==> Admits(s.check, s.rows)
    requires forall op :: op in s.check ==> Declared(h, s.applied, op)
    ensures RunUp(h, deferred, s, plan) == Committed(end)
    ensures DownwardClosed(h, end.applied)
    ensures end.rows == s.rows
    ensures forall r :: r in end.applied <==> r in s.applied || r in plan
    ensures union in end.applied ==> end.validated
    ensures end.validated ==> Admits(end.check, end.rows)
    ensures forall op :: op in end.check ==> Declared(h, end.applied, op)
    decreases |plan|
  {
    RunnableRevisionsExist(h, s.applied, plan);
    if plan == [] {
      end := s;
    } else {
      var r := plan[0];
      NoRowsBeforeTheTable(h, declared, s, r);
      if h[r].edit.Replaces? {
        if h[r].edit.created in deferred {
          NotAppliedBefore(h, s.applied, r, union);
        } else {
          MissingWideCheckAdmitsRows(h, deferred, declared, s.rows, r);
        }
      }
      var next := StepUp(h, deferred, s, r).state;
      StepDeclares(h, s, next, r);
      end := DeferredRunCommits(h, union, deferred, declared, next, plan[1..]);
      assert plan == [r] + plan[1..];
    }
  }

  lemma NoRowsBeforeTheTable(h: AuditHistory, declared: set<RevisionId>, s: State, r: RevisionId)
    requires WellOrdered(h) && OneTable(h) && DownwardClosed(h, s.applied) && r < |h| && r !in s.applied
    requires DownwardClosed(h, declared) && declared <= s.applied && RowsDeclared(h, declared, s.rows)
    ensures h[r].edit.CreatesTable? ==> s.rows == []
  {
    if h[r].edit.CreatesTable? && s.rows != [] {
      assert Declared(h, declared, s.rows[0]);
      var q :| q in declared;
      BaseIsAncestor(h, q);
      ClosedSetsHoldAncestors(h, declared, q);
    }
  }

  /** A missing revision is missing for everything that builds on it. */
  lemma NotAppliedBefore(h: AuditHistory, applied: set<RevisionId>, r: RevisionId, union: RevisionId)
    requires WellOrdered(h) && DownwardClosed(h, applied) && union < |h|
    requires r in Ancestors(h, union) && r !in applied
    ensures union !in applied
  {
    if union in applied {
      ClosedSetsHoldAncestors(h, applied, union);
    }
  }

  lemma StepDeclares(h: AuditHistory, s: State, next: State, r: RevisionId)
    requires WellOrdered(h) && DownwardClosed(h, s.applied) && r < |h|
    requires next.applied == s.applied + {r}
    requires next.check == if h[r].edit.Keeps? then s.check else h[r].edit.created
    requires forall op :: op in s.check ==> Declared(h, s.applied, op)
    ensures forall op :: op in next.check ==> Declared(h, next.applied, op)
  {
    forall op | op in next.check
      ensures Declared(h, next.applied, op)
    {
      if h[r].edit.Keeps? {
        var q :| q in s.applied && op in Created(h[q].edit);
        assert q in next.applied;
      } else {
        assert r in next.applied && op in Created(h[r].edit);
      }
    }
  }

  lemma ConsistentRowsAreDeclared(h: AuditHistory, s: State)
    requires WellOrdered(h) && Consistent(h, s)
    ensures RowsDeclared(h, s.applied, s.rows)
    ensures forall union :: Upgradable(h, union, s)
  {
  }

  /** Taking the guard means the target is still missing, and everything applied is below it. */
  lemma GuardMeansForward(h: AuditHistory, cfg: Integration, applied: set<RevisionId>, target: RevisionId)
    requires WellOrdered(h) && DownwardClosed(h, applied) && target < |h|
    requires Configured(h, cfg)
    requires IntegratedUpgrade(h, cfg, Heads(h, applied), target).Guarded?
    ensures target !in applied && applied <= Ancestors(h, target)
  {
    TargetIsAppliedOnlyAsSoleHead(h, applied, target);
    HeadsBound(h, applied, target);
  }

  /** No downgrade is routed through the guard: with a strict descendant of the destination
      applied, the plain path is taken. */
  lemma DowngradeIsNeverGuarded(h: AuditHistory, cfg: Integration, applied: set<RevisionId>, target: RevisionId,
      above: RevisionId)
    requires WellOrdered(h) && DownwardClosed(h, applied) && target < |h|
    requires Configured(h, cfg)
    requires above in applied && above != target && target in Ancestors(h, above)
    ensures IntegratedUpgrade(h, cfg, Heads(h, applied), target) == Plain
  {
    if Heads(h, applied) <= Ancestors(h, target) {
      HeadsBound(h, applied, target);
    }
  }

  lemma GuardedRunCommits(h: AuditHistory, cfg: Integration, s: State, target: RevisionId, plan: seq<RevisionId>)
    returns (end: State)
    requires Sound(h, cfg) && Upgradable(h, cfg.union, s) && target < |h|
    requires UpgradePlan(h, s.applied, target, plan)
    requires IntegratedUpgrade(h, cfg, Heads(h, s.applied), target).Guarded?
    ensures RunUp(h, LegacyChecks(h, cfg), s, plan) == Committed(end)
    ensures Upgrade(h, cfg, s, target, plan) == Committed(end)
    ensures end.applied == Ancestors(h, target) && Heads(h, end.applied) == {target}
    ensures end.rows == s.rows
    ensures Consistent(h, end)
  {
    end := DeferredRunCommits(h, cfg.union, LegacyChecks(h, cfg), s.applied, s, plan);
    GuardMeansForward(h, cfg, s.applied, target);
    assert end.applied == Ancestors(h, target);
    CommitCheckPasses(h, cfg, s, target, plan, end);
  }

  /** The guarded upgrade always commits: whatever rows the applied branches wrote and in
      whatever order the missing revisions run, no scan fails, the rows are untouched, exactly
      the target's ancestors end applied, and the CHECK ends validated over all rows. */
  lemma GuardedUpgradeCommits(h: AuditHistory, cfg: Integration, s: State, target: RevisionId, plan: seq<RevisionId>)
    returns (end: State)
    requires Sound(h, cfg) && Upgradable(h, cfg.union, s) && target < |h|
    requires UpgradePlan(h, s.applied, target, plan)
    requires IntegratedUpgrade(h, cfg, Heads(h, s.applied), target).Guarded?
    ensures Upgrade(h, cfg, s, target, plan) == Committed(end)
    ensures end.applied == Ancestors(h, target) && Heads(h, end.applied) == {target}
    ensures end.rows == s.rows
    ensures Consistent(h, end)
    ensures (forall i :: 0 <= i < |plan| ==> plan[i] < |h|) && EndsOn(h, s.check, plan, end.check)
  {
    end := GuardedRunCommits(h, cfg, s, target, plan);
    RunUpAppliesThePlan(h, LegacyChecks(h, cfg), s, plan);
  }

  /** The condition checked before the commit: a single head, the target, and `convalidated`. */
  lemma CommitCheckPasses(h: AuditHistory, cfg: Integration, s: State, target: RevisionId, plan: seq<RevisionId>,
      end: State)
    requires WellOrdered(h) && target < |h|
    requires Configured(h, cfg)
    requires IntegratedUpgrade(h, cfg, Heads(h, s.applied), target).Guarded?
    requires RunUp(h, LegacyChecks(h, cfg), s, plan) == Committed(end)
    requires end.applied == Ancestors(h, target)
    ensures Heads(h, end.applied) == {target}
    ensures Upgrade(h, cfg, s, target, plan) == if end.validated then Committed(end) else RolledBack
  {
    AncestorsHaveOneHead(h, target);
  }

  /** The plain path keeps rows and consistency too, but it may roll back. */
  lemma {:induction false} PlainRunIsConsistent(h: AuditHistory, s: State, plan: seq<RevisionId>)
    requires WellOrdered(h) && OneTable(h) && Consistent(h, s) && Runnable(h, s.applied, plan)
    ensures RunUp(h, {}, s, plan).Committed? ==>
      && Consistent(h, RunUp(h, {}, s, plan).state)
      && RunUp(h, {}, s, plan).state.rows == s.rows
    decreases |plan|
  {
    RunnableRevisionsExist(h, s.applied, plan);
    if plan != [] {
      var r := plan[0];
      ConsistentRowsAreDeclared(h, s);
      NoRowsBeforeTheTable(h, s.applied, s, r);
      match StepUp(h, {}, s, r)
      case RolledBack =>
      case Committed(next) =>
        StepDeclares(h, s, next, r);
        PlainRunIsConsistent(h, next, plan[1..]);
    }
  }

  /** Exactly when the plain path rolls back: some CHECK it creates excludes a row. */
  lemma {:induction false} PlainRunFailsIff(h: AuditHistory, s: State, plan: seq<RevisionId>)
    requires WellOrdered(h) && OneTable(h) && Consistent(h, s) && Runnable(h, s.applied, plan)
    ensures RunUp(h, {}, s, plan).RolledBack? <==>
      exists i :: 0 <= i < |plan| && plan[i] < |h| && h[plan[i]].edit.Replaces?
        && !Admits(h[plan[i]].edit.created, s.rows)
    decreases |plan|
  {
    RunnableRevisionsExist(h, s.applied, plan);
    if plan != [] {
      var r := plan[0];
      ConsistentRowsAreDeclared(h, s);
      NoRowsBeforeTheTable(h, s.applied, s, r);
      assert forall i :: 0 < i < |plan| ==> plan[i] == plan[1..][i - 1];
      match StepUp(h, {}, s, r)
      case RolledBack =>
        assert h[plan[0]].edit.Replaces? && !Admits(h[plan[0]].edit.created, s.rows);
      case Committed(next) =>
        StepDeclares(h, s, next, r);
        PlainRunFailsIff(h, next, plan[1..]);
        if i :| (&& 0 <= i < |plan| && plan[i] < |h| && h[plan[i]].edit.Replaces?
                 && !Admits(h[plan[i]].edit.created, s.rows)) {
          assert plan[1..][i - 1] == plan[i];
        }
    }
  }

  // ------------------------------------------------------------------ what an upgrade leaves

  /** The CHECK in force after a plan: that of the last revision of it that sets one, or the one from
      before if none does. */
  ghost predicate EndsOn(h: AuditHistory, before: Check, plan: seq<RevisionId>, after: Check)
    requires forall i :: 0 <= i < |plan| ==> plan[i] < |h|
  {
    || (after == before && forall i :: 0 <= i < |plan| ==> h[plan[i]].edit.Keeps?)
    || exists i :: 0 <= i < |plan| && SetsLast(h, plan, i, after)
  }

  ghost predicate SetsLast(h: AuditHistory, plan: seq<RevisionId>, i: nat, after: Check)
    requires i < |plan| && forall j :: 0 <= j < |plan| ==> plan[j] < |h|
  {
    && !h[plan[i]].edit.Keeps? && h[plan[i]].edit.created == after
    && forall j :: i < j < |plan| ==> h[plan[j]].edit.Keeps?
  }

  /** A committed run applied its whole plan and nothing else, and ends on its last CHECK, for any
      history and any state. */
  lemma {:induction false} RunUpAppliesThePlan(h: AuditHistory, deferred: set<Check>, s: State, plan: seq<RevisionId>)
    requires RunUp(h, deferred, s, plan).Committed?
    ensures forall i :: 0 <= i < |plan| ==> plan[i] < |h|
    ensures forall r :: r in RunUp(h, deferred, s, plan).state.applied <==> r in s.applied || r in plan
    ensures EndsOn(h, s.check, plan, RunUp(h, deferred, s, plan).state.check)
    ensures (forall i :: 0 <= i < |plan| ==> !h[plan[i]].edit.CreatesTable?) ==>
      RunUp(h, deferred, s, plan).state.rows == s.rows
    decreases |plan|
  {
    if plan == [] {
    } else {
      var rest := plan[1..];
      var next := StepUp(h, deferred, s, plan[0]).state;
      var end := RunUp(h, deferred, s, plan).state;
      RunUpAppliesThePlan(h, deferred, next, rest);
      assert forall i :: 0 < i < |plan| ==> plan[i] == rest[i - 1];
      assert forall i :: 0 <= i < |rest| ==> rest[i] == plan[i + 1];
      assert plan == [plan[0]] + rest;
      if i :| 0 <= i < |rest| && SetsLast(h, rest, i, end.check) {
        assert SetsLast(h, plan, i + 1, end.check);
      } else if !h[plan[0]].edit.Keeps? {
        assert SetsLast(h, plan, 0, end.check);
      }
    }
  }

  /** The plain route, exactly: it commits if and only if every CHECK the plan creates admits the rows.
      It then has applied the target and all its ancestors, keeps the rows, ends on the plan's last
      CHECK, validated; and it changes nothing otherwise. */
  lemma PlainUpgradeCommitsIff(h: AuditHistory, cfg: Integration, s: State, target: RevisionId, plan: seq<RevisionId>)
    requires Sound(h, cfg) && Consistent(h, s) && target < |h| && UpgradePlan(h, s.applied, target, plan)
    requires IntegratedUpgrade(h, cfg, Heads(h, s.applied), target).Plain?
    ensures forall i :: 0 <= i < |plan| ==> plan[i] < |h|
    ensures Upgrade(h, cfg, s, target, plan).Committed? <==>
      forall i, k :: 0 <= i < |plan| && h[plan[i]].edit.Replaces? && 0 <= k < |s.rows| ==>
        s.rows[k] in h[plan[i]].edit.created
    ensures Upgrade(h, cfg, s, target, plan).Committed? ==>
      var end := Upgrade(h, cfg, s, target, plan).state;
      && end.applied == s.applied + Ancestors(h, target)
      && (s.applied <= Ancestors(h, target) ==> Heads(h, end.applied) == {target})
      && end.rows == s.rows && end.validated
      && EndsOn(h, s.check, plan, end.check) && Consistent(h, end)
  {
    RunnableRevisionsExist(h, s.applied, plan);
    PlainRunFailsIff(h, s, plan);
    PlainRunIsConsistent(h, s, plan);
    if Upgrade(h, cfg, s, target, plan).Committed? {
      RunUpAppliesThePlan(h, {}, s, plan);
      var end := Upgrade(h, cfg, s, target, plan).state;
      assert end.applied == s.applied + Ancestors(h, target);
      if s.applied <= Ancestors(h, target) {
        assert end.applied == Ancestors(h, target);
        AncestorsHaveOneHead(h, target);
      }
    }
  }

  // ------------------------------------------------------------------ downgrades

  /** The rows as the `i`-th undo finds them: none once the table was dropped. */
  ghost function RowsFound(h: AuditHistory, rows: seq<Operation>, undos: seq<Undo>, i: nat): seq<Operation>
    requires i <= |undos|
  {
    if exists j :: 0 <= j < i && undos[j].revision < |h| && h[undos[j].revision].edit.CreatesTable? then [] else rows
  }

  /** The undo's own guards pass, no row is among those it guards, and its narrower CHECK admits all. */
  ghost predicate Undoes(h: AuditHistory, rows: seq<Operation>, u: Undo) {
    && u.revision < |h| && u.othersPass
    && (h[u.revision].edit.Replaces? ==>
          forall k :: 0 <= k < |rows| ==>
            rows[k] !in h[u.revision].edit.guard && rows[k] in h[u.revision].edit.restored)
  }

  /** The CHECK in force after undoing: what the last undone revision that set one restores, none after
      the table was dropped, or the one from before. */
  ghost predicate EndsOnRestored(h: AuditHistory, before: Check, undos: seq<Undo>, after: Check)
    requires forall i :: 0 <= i < |undos| ==> undos[i].revision < |h|
  {
    || (after == before && forall i :: 0 <= i < |undos| ==> h[undos[i].revision].edit.Keeps?)
    || exists i :: 0 <= i < |undos| && RestoresLast(h, undos, i, after)
  }

  ghost predicate RestoresLast(h: AuditHistory, undos: seq<Undo>, i: nat, after: Check)
    requires i < |undos| && forall j :: 0 <= j < |undos| ==> undos[j].revision < |h|
  {
    && (match h[undos[i].revision].edit
        case Keeps => false
        case CreatesTable(_) => after == []
        case Replaces(_, restored, _) => after == restored)
    && forall j :: i < j < |undos| ==> h[undos[j].revision].edit.Keeps?
  }

  lemma {:induction false} RunDownCommitsIff(h: AuditHistory, s: State, undos: seq<Undo>)
    ensures RunDown(h, s, undos).Committed? <==>
      forall i :: 0 <= i < |undos| ==> Undoes(h, RowsFound(h, s.rows, undos, i), undos[i])
    ensures RunDown(h, s, undos).Committed? ==> RunDown(h, s, undos).state.rows == RowsFound(h, s.rows, undos, |undos|)
    decreases |undos|
  {
    if undos == [] {
    } else {
      var u, rest := undos[0], undos[1..];
      assert forall i :: 0 < i < |undos| ==> undos[i] == rest[i - 1];
      assert forall i :: 0 <= i < |rest| ==> rest[i] == undos[i + 1];
      assert RowsFound(h, s.rows, undos, 0) == s.rows;
      if Undoes(h, s.rows, u) {
        var next := StepDown(h, s, u.revision, u.othersPass).state;
        RunDownCommitsIff(h, next, rest);
        forall i | 0 <= i <= |rest|
          ensures RowsFound(h, next.rows, rest, i) == RowsFound(h, s.rows, undos, i + 1)
        {
          RowsFoundLater(h, s.rows, undos, i);
        }
      } else {
        assert !Undoes(h, RowsFound(h, s.rows, undos, 0), undos[0]);
      }
    }
  }

  lemma {:induction false} RunDownRestores(h: AuditHistory, s: State, undos: seq<Undo>)
    requires RunDown(h, s, undos).Committed?
    ensures var end := RunDown(h, s, undos).state;
      && (forall i :: 0 <= i < |undos| ==> undos[i].revision < |h|)
      && (forall r :: r in end.applied <==> r in s.applied && forall i :: 0 <= i < |undos| ==> undos[i].revision != r)
      && EndsOnRestored(h, s.check, undos, end.check)
    decreases |undos|
  {
    if undos == [] {
    } else {
      var u, rest := undos[0], undos[1..];
      var next := StepDown(h, s, u.revision, u.othersPass).state;
      RunDownRestores(h, next, rest);
      assert forall i :: 0 < i < |undos| ==> undos[i] == rest[i - 1];
      assert forall i :: 0 <= i < |rest| ==> rest[i] == undos[i + 1];
      UndoEndsOn(h, s.check, next.check, undos, RunDown(h, s, undos).state.check);
    }
  }

  /** A downgrade, exactly: it commits if and only if each undo finds its guards passing, no guarded row
      and only rows its narrower CHECK admits. It then has undone just those revisions and ends on the
      CHECK the last of them restores; the rows stay unless the table is dropped. */
  lemma RunDownUndoesIff(h: AuditHistory, s: State, undos: seq<Undo>)
    ensures RunDown(h, s, undos).Committed? <==>
      forall i :: 0 <= i < |undos| ==> Undoes(h, RowsFound(h, s.rows, undos, i), undos[i])
    ensures RunDown(h, s, undos).Committed? ==>
      var end := RunDown(h, s, undos).state;
      && (forall i :: 0 <= i < |undos| ==> undos[i].revision < |h|)
      && (forall r :: r in end.applied <==> r in s.applied && forall i :: 0 <= i < |undos| ==> undos[i].revision != r)
      && end.rows == RowsFound(h, s.rows, undos, |undos|)
      && EndsOnRestored(h, s.check, undos, end.check)
  {
    RunDownCommitsIff(h, s, undos);
    if RunDown(h, s, undos).Committed? {
      RunDownRestores(h, s, undos);
    }
  }

  lemma RowsFoundLater(h: AuditHistory, rows: seq<Operation>, undos: seq<Undo>, i: nat)
    requires undos != [] && i <= |undos[1..]| && undos[0].revision < |h|
    ensures var next := if h[undos[0].revision].edit.CreatesTable? then [] else rows;
      RowsFound(h, next, undos[1..], i) == RowsFound(h, rows, undos, i + 1)
  {
    var rest := undos[1..];
    if j :| 0 <= j < i && rest[j].revision < |h| && h[rest[j].revision].edit.CreatesTable? {
      assert undos[j + 1] == rest[j];
    }
    if j :| 0 < j < i + 1 && undos[j].revision < |h| && h[undos[j].revision].edit.CreatesTable? {
      assert rest[j - 1] == undos[j];
    }
  }

  lemma UndoEndsOn(h: AuditHistory, before: Check, next: Check, undos: seq<Undo>, after: Check)
    requires undos != [] && forall i :: 0 <= i < |undos| ==> undos[i].revision < |h|
    requires next == match h[undos[0].revision].edit
                     case Keeps => before
                     case CreatesTable(_) => []
                     case Replaces(_, restored, _) => restored
    requires forall i :: 0 <= i < |undos[1..]| ==> undos[1..][i].revision < |h|
    requires EndsOnRestored(h, next, undos[1..], after)
    ensures EndsOnRestored(h, before, undos, after)
  {
    var rest := undos[1..];
    assert forall i :: 0 < i < |undos| ==> undos[i] == rest[i - 1];
    if i :| 0 <= i < |rest| && RestoresLast(h, rest, i, after) {
      assert RestoresLast(h, undos, i + 1, after);
    } else if !h[undos[0].revision].edit.Keeps? {
      assert RestoresLast(h, undos, 0, after);
    }
  }

  /** Removing a head leaves what its ancestors declared declared. */
  lemma StillDeclared(h: AuditHistory, applied: set<RevisionId>, r: RevisionId, op: Operation)
    requires WellOrdered(h) && DownwardClosed(h, applied) && r in applied
    requires RestoresAreDeclared(h) && h[r].edit.Replaces? && op in h[r].edit.restored
    ensures Declared(h, applied - {r}, op)
  {
    ClosedSetsHoldAncestors(h, applied, r);
    var a :| a in Ancestors(h, r) && a != r && op in Created(h[a].edit);
    assert a in applied - {r};
  }

  lemma HeadRemovalStaysClosed(h: AuditHistory, applied: set<RevisionId>, r: RevisionId)
    requires WellOrdered(h) && DownwardClosed(h, applied) && r in Heads(h, applied)
    ensures DownwardClosed(h, applied - {r})
  {
    forall c | c in applied - {r}
      ensures h[c].parents <= applied - {r}
    {
      assert r !in h[c].parents;
    }
  }

  /** Undoing a head keeps the database consistent, and keeps the rows unless it drops the table.
      A revision that keeps the CHECK must not be the only one that declares an operation: it
      declares none. */
  lemma StepDownIsConsistent(h: AuditHistory, s: State, r: RevisionId, othersPass: bool)
    requires WellOrdered(h) && OneTable(h) && RestoresAreDeclared(h)
    requires Consistent(h, s) && r in Heads(h, s.applied)
    ensures StepDown(h, s, r, othersPass).Committed? ==>
      && Consistent(h, StepDown(h, s, r, othersPass).state)
      && (r != 0 ==> StepDown(h, s, r, othersPass).state.rows == s.rows)
  {
    HeadRemovalStaysClosed(h, s.applied, r);
    match StepDown(h, s, r, othersPass)
    case RolledBack =>
    case Committed(next) =>
      forall op | op in next.check
        ensures Declared(h, next.applied, op)
      {
        if h[r].edit.Keeps? {
          var q :| q in s.applied && op in Created(h[q].edit);
          assert q in next.applied;
        } else {
          StillDeclared(h, s.applied, r, op);
        }
      }
  }

  /** Whenever a complete guard passes, the narrower CHECK validates, whichever branch created
      the live one: the only way left to fail is a guard. */
  lemma CompleteGuardSuffices(h: AuditHistory, s: State, r: RevisionId)
    requires WellOrdered(h) && Consistent(h, s) && r in Heads(h, s.applied)
    requires GuardIsComplete(h, r)
    ensures StepDown(h, s, r, true).RolledBack? <==>
      h[r].edit.Replaces? && exists op :: op in h[r].edit.guard && op in s.rows
  {
    if h[r].edit.Replaces? && !exists op :: op in h[r].edit.guard && op in s.rows {
      forall i | 0 <= i < |s.rows|
        ensures s.rows[i] in h[r].edit.restored
      {
        assert Declared(h, s.applied, s.rows[i]);
        var q :| q in s.applied && s.rows[i] in Created(h[q].edit);
        if q != r {
          HeadIsNoProperAncestor(h, s.applied, r, q);
        }
        assert DeclaredBeside(h, r, q, s.rows[i]);
      }
    }
  }

  lemma HeadIsNoProperAncestor(h: AuditHistory, applied: set<RevisionId>, r: RevisionId, q: RevisionId)
    requires WellOrdered(h) && DownwardClosed(h, applied) && r in Heads(h, applied) && q in applied && q != r
    ensures r !in Ancestors(h, q)
  {
    if r in Ancestors(h, q) {
      var child := ProperAncestorHasChild(h, r, q);
      ClosedSetsHoldAncestors(h, applied, q);
      assert false;
    }
  }

  // ------------------------------------------------------------------ whole runs

  datatype Event =
    | Insertion(op: Operation)
    | UpgradeTo(target: RevisionId, plan: seq<RevisionId>)
    | DowngradeBy(undos: seq<Undo>)

  ghost predicate Enabled(h: AuditHistory, applied: set<RevisionId>, e: Event)
    requires WellOrdered(h)
  {
    && DownwardClosed(h, applied)
    && match e
       case Insertion(_) => true
       case UpgradeTo(target, plan) => target < |h| && UpgradePlan(h, applied, target, plan)
       case DowngradeBy(undos) => Undoable(h, applied, undos)
  }

  /** What the transaction leaves, committed or rolled back. */
  ghost function Next(h: AuditHistory, cfg: Integration, s: State, e: Event): State
    requires Sound(h, cfg) && Enabled(h, s.applied, e)
  {
    var outcome :=
      match e
      case Insertion(op) => Insert(s, op)
      case UpgradeTo(target, plan) => Upgrade(h, cfg, s, target, plan)
      case DowngradeBy(undos) => RunDown(h, s, undos);
    if outcome.Committed? then outcome.state else s
  }

  ghost predicate DropsTable(undos: seq<Undo>) {
    exists i :: 0 <= i < |undos| && undos[i].revision == 0
  }

  lemma {:induction false} RunDownIsConsistent(h: AuditHistory, s: State, undos: seq<Undo>)
    requires WellOrdered(h) && OneTable(h) && RestoresAreDeclared(h)
    requires Consistent(h, s) && Undoable(h, s.applied, undos)
    ensures RunDown(h, s, undos).Committed? ==>
      && Consistent(h, RunDown(h, s, undos).state)
      && (!DropsTable(undos) ==> RunDown(h, s, undos).state.rows == s.rows)
    decreases |undos|
  {
    if undos == [] {
    } else {
      var u := undos[0];
      StepDownIsConsistent(h, s, u.revision, u.othersPass);
      match StepDown(h, s, u.revision, u.othersPass)
      case RolledBack =>
      case Committed(next) =>
        RunDownIsConsistent(h, next, undos[1..]);
        if DropsTable(undos[1..]) {
          var i :| 0 <= i < |undos[1..]| && undos[1..][i].revision == 0;
          assert undos[i + 1].revision == 0;
        }
    }
  }

  /** One transaction of any kind keeps the invariant and never loses or rewrites a row, unless
      it drops the table. */
  lemma NextIsConsistent(h: AuditHistory, cfg: Integration, s: State, e: Event)
    requires Sound(h, cfg) && Consistent(h, s) && Enabled(h, s.applied, e)
    ensures Consistent(h, Next(h, cfg, s, e))
    ensures (e.DowngradeBy? && DropsTable(e.undos)) || s.rows <= Next(h, cfg, s, e).rows
  {
    match e
    case Insertion(op) =>
    case UpgradeTo(target, plan) =>
      if IntegratedUpgrade(h, cfg, Heads(h, s.applied), target).Guarded? {
        ConsistentRowsAreDeclared(h, s);
        var _ := GuardedUpgradeCommits(h, cfg, s, target, plan);
      } else {
        PlainRunIsConsistent(h, s, plan);
      }
    case DowngradeBy(undos) =>
      RunDownIsConsistent(h, s, undos);
  }

  /** A run of transactions: each starts from what the one before left. */
  ghost predicate IsRun(h: AuditHistory, cfg: Integration, states: seq<State>, events: seq<Event>)
    requires Sound(h, cfg)
  {
    && |states| == |events| + 1
    && forall i :: 0 <= i < |events| ==>
         Enabled(h, states[i].applied, events[i]) && states[i + 1] == Next(h, cfg, states[i], events[i])
  }

  /** Over any interleaving of inserts, upgrades and downgrades, every commit leaves a validated
      CHECK that all rows satisfy, and while the table is not dropped the rows only grow. */
  lemma {:induction false} EveryRunStaysConsistent(h: AuditHistory, cfg: Integration,
      states: seq<State>, events: seq<Event>, n: nat)
    requires Sound(h, cfg) && IsRun(h, cfg, states, events) && n < |states|
    requires states[0] == Empty()
    ensures Consistent(h, states[n])
    decreases n
  {
    if n == 0 {
    } else {
      EveryRunStaysConsistent(h, cfg, states, events, n - 1);
      NextIsConsistent(h, cfg, states[n - 1], events[n - 1]);
    }
  }

  /** A transaction of a run drops the table or keeps every row. */
  lemma RunStepKeepsRows(h: AuditHistory, cfg: Integration, states: seq<State>, events: seq<Event>, i: nat)
    requires Sound(h, cfg) && IsRun(h, cfg, states, events) && i < |events|
    requires states[0] == Empty()
    ensures (events[i].DowngradeBy? && DropsTable(events[i].undos)) || states[i].rows <= states[i + 1].rows
  {
    EveryRunStaysConsistent(h, cfg, states, events, i);
    NextIsConsistent(h, cfg, states[i], events[i]);
  }

  lemma {:induction false} RowsAreNeverLost(h: AuditHistory, cfg: Integration,
      states: seq<State>, events: seq<Event>, m: nat, n: nat)
    requires Sound(h, cfg) && IsRun(h, cfg, states, events) && m <= n < |states|
    requires states[0] == Empty()
    requires forall i :: m <= i < n && events[i].DowngradeBy? ==> !DropsTable(events[i].undos)
    ensures states[m].rows <= states[n].rows
    decreases n
  {
    if m < n {
      RowsAreNeverLost(h, cfg, states, events, m, n - 1);
      RunStepKeepsRows(h, cfg, states, events, n - 1);
    }
  }
}
