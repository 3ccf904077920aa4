/** `check_workflow`: the checker, proved to report exactly the violations of the contract. */
module WorkflowChecker {
  import opened Options
  import opened Workflow

  datatype Error =
    | UndeclaredInitial(name: string)
    | UndeclaredTerminal(name: string)
    | TerminalityDisagrees(name: string)
    | Unreachable(name: string)
    | MissingObjective(name: string)
    | DecisionInUnknownState(name: string)
    | DecisionByUnknownActor(name: string, actor: string)
    | DuplicateId(id: string)
    | UnknownSource(id: string)
    | UnknownTarget(id: string)
    | LeavesTerminal(id: string)
    | NoActor(id: string)
    | UnknownActor(id: string, actor: string)
    | ApprovalNotBoolean(id: string)
    | UnknownDecisionPoint(id: string)
    | UndeclaredOutcome(id: string, outcome: string)
    | DecisionElsewhere(id: string)
    | ApprovalNotRequired(id: string)
    | NotHumanOnly(id: string)
    | ApprovalNotRecorded(id: string)
    | ClosesWithoutPostmortem(id: string)
    | NoReturnToInvestigation
    | NothingCloses

  /** The checker raises on a transition without a `to` key and on a null decision point. */
  datatype Outcome = Raised | Report(errors: seq<Error>)

  // ------------------------------------------------------------------ violations

  ghost predicate StateViolates(w: Definition, n: string, e: Error)
    requires n in w.states
  {
    match e
    case TerminalityDisagrees(name) => name == n && w.states[n].terminal != (n in w.terminal)
    case Unreachable(name) => name == n && !Reachable(w, Some(n))
    case MissingObjective(name) => name == n && w.states[n].allowsAgenticStep && !w.states[n].hasObjective
    case _ => false
  }

  predicate DecisionViolates(w: Definition, n: string, e: Error)
    requires n in w.decisionPoints
  {
    var d := w.decisionPoints[n];
    match e
    case DecisionInUnknownState(name) => name == n && (d.None? || !Known(w, d.value.state))
    case DecisionByUnknownActor(name, actor) =>
      name == n && d.Some? && actor in AsList(d.value.actor) && actor !in VALID_ACTORS
    case _ => false
  }

  predicate EndsViolate(w: Definition, t: Transition, e: Error) {
    match e
    case UnknownSource(id) => id == t.id && !Known(w, t.source)
    case UnknownTarget(id) => id == t.id && !Known(w, t.Target())
    case LeavesTerminal(id) => id == t.id && Terminal(w, t.source)
    case _ => false
  }

  predicate ActorsViolate(t: Transition, e: Error) {
    match e
    case NoActor(id) => id == t.id && AsList(t.actor) == []
    case UnknownActor(id, actor) => id == t.id && actor in AsList(t.actor) && actor !in VALID_ACTORS
    case ApprovalNotBoolean(id) => id == t.id && t.requiresApproval.None?
    case _ => false
  }

  predicate DecisionUseViolates(w: Definition, t: Transition, e: Error) {
    match e
    case UnknownDecisionPoint(id) => id == t.id && t.decisionPoint.Some? && DecisionOf(w, t).None?
    case UndeclaredOutcome(id, outcome) =>
      id == t.id && DecisionOf(w, t).Some? && outcome in AsList(t.onOutcome)
      && outcome !in DecisionOf(w, t).value.outcomes
    case DecisionElsewhere(id) => id == t.id && DecisionOf(w, t).Some? && DecisionOf(w, t).value.state != t.source
    case _ => false
  }

  predicate ApprovalViolates(w: Definition, t: Transition, e: Error) {
    match e
    case ApprovalNotRequired(id) => id == t.id && Protected(w, t) && t.requiresApproval != Some(true)
    case NotHumanOnly(id) => id == t.id && Protected(w, t) && AsList(t.actor) != [HUMAN]
    case ApprovalNotRecorded(id) => id == t.id && Protected(w, t) && t.recordsApproval != Some(true)
    case _ => false
  }

  predicate TransitionViolates(w: Definition, t: Transition, e: Error) {
    EndsViolate(w, t, e) || ActorsViolate(t, e) || DecisionUseViolates(w, t, e) || ApprovalViolates(w, t, e)
  }

  predicate ClosingViolates(t: Transition, e: Error) {
    e == ClosesWithoutPostmortem(t.id) && t.Target() == Some(CLOSED) && t.source != Some(POSTMORTEM)
  }

  ghost predicate SameIdTwice(w: Definition, n: nat, id: string)
    requires n <= |w.transitions|
  {
    exists i, j :: 0 <= i < j < n && w.transitions[i].id == id && w.transitions[j].id == id
  }

  ghost predicate DefinitionViolates(w: Definition, e: Error) {
    match e
    case UndeclaredInitial(name) => name == w.initial && name !in w.states
    case UndeclaredTerminal(name) => name in w.terminal && name !in w.states
    case DuplicateId(id) => SameIdTwice(w, |w.transitions|, id)
    case NoReturnToInvestigation => forall t :: t in w.transitions ==> !ReturnsToInvestigation(t)
    case NothingCloses => forall t :: t in w.transitions ==> t.Target() != Some(CLOSED)
    case _ => false
  }

  ghost predicate Violates(w: Definition, e: Error) {
    || DefinitionViolates(w, e)
    || (exists n :: n in w.states && StateViolates(w, n, e))
    || (exists n :: n in w.decisionPoints && DecisionViolates(w, n, e))
    || (exists t :: t in w.transitions && TransitionViolates(w, t, e))
    || (exists t :: t in w.transitions && ClosingViolates(t, e))
  }

  // ------------------------------------------------------------------ what the errors say

  /** The decision point a transition names, as declared. */
  ghost predicate Names(w: Definition, t: Transition, d: DecisionPoint) {
    && t.decisionPoint.Some? && t.decisionPoint.value in w.decisionPoints
    && w.decisionPoints[t.decisionPoint.value] == Some(d)
  }

  /** Closing, or approving at a decision point declared blocking. */
  ghost predicate MustBeApproved(w: Definition, t: Transition) {
    t.to == Named("closed") || exists d :: Names(w, t, d) && d.blocking && Lists(t.onOutcome, "approve")
  }

  lemma ProtectedSays(w: Definition, t: Transition)
    ensures Protected(w, t) <==> MustBeApproved(w, t)
  {
    if DecisionOf(w, t).Some? {
      assert Names(w, t, DecisionOf(w, t).value);
    }
  }

  /** The errors about approvals, over the fields of the document. */
  lemma ApprovalErrorsSay(w: Definition, t: Transition, id: string)
    ensures TransitionViolates(w, t, ApprovalNotRequired(id)) <==>
      id == t.id && MustBeApproved(w, t) && t.requiresApproval != Some(true)
    ensures TransitionViolates(w, t, NotHumanOnly(id)) <==>
      id == t.id && MustBeApproved(w, t) && !ListsOnly(t.actor, "human")
    ensures TransitionViolates(w, t, ApprovalNotRecorded(id)) <==>
      id == t.id && MustBeApproved(w, t) && t.recordsApproval != Some(true)
    ensures ClosingViolates(t, ClosesWithoutPostmortem(id)) <==>
      id == t.id && t.to == Named("closed") && t.source != Some("postmortem")
  {
    ProtectedSays(w, t);
  }

  lemma OnlyTransitionsLackApproval(w: Definition, e: Error)
    requires e.ApprovalNotRequired? || e.NotHumanOnly? || e.ApprovalNotRecorded?
    ensures Violates(w, e) <==> exists t :: t in w.transitions && TransitionViolates(w, t, e)
  {
  }

  /** The report about approvals, over the fields of the document: each of the three errors comes
      exactly from a closing step, or an approval at a blocking decision point, that lacks it. */
  lemma ApprovalReportSays(w: Definition, id: string)
    ensures Violates(w, ApprovalNotRequired(id)) <==>
      exists t :: t in w.transitions && id == t.id && MustBeApproved(w, t) && t.requiresApproval != Some(true)
    ensures Violates(w, NotHumanOnly(id)) <==>
      exists t :: t in w.transitions && id == t.id && MustBeApproved(w, t) && !ListsOnly(t.actor, "human")
    ensures Violates(w, ApprovalNotRecorded(id)) <==>
      exists t :: t in w.transitions && id == t.id && MustBeApproved(w, t) && t.recordsApproval != Some(true)
  {
    OnlyTransitionsLackApproval(w, ApprovalNotRequired(id));
    OnlyTransitionsLackApproval(w, NotHumanOnly(id));
    OnlyTransitionsLackApproval(w, ApprovalNotRecorded(id));
    forall t
      ensures TransitionViolates(w, t, ApprovalNotRequired(id)) <==>
        id == t.id && MustBeApproved(w, t) && t.requiresApproval != Some(true)
      ensures TransitionViolates(w, t, NotHumanOnly(id)) <==>
        id == t.id && MustBeApproved(w, t) && !ListsOnly(t.actor, "human")
      ensures TransitionViolates(w, t, ApprovalNotRecorded(id)) <==>
        id == t.id && MustBeApproved(w, t) && t.recordsApproval != Some(true)
    {
      ApprovalErrorsSay(w, t, id);
    }
  }

  /** The errors about the ends of a transition. */
  lemma EndErrorsSay(w: Definition, t: Transition, id: string)
    ensures TransitionViolates(w, t, UnknownSource(id)) <==>
      id == t.id && !(t.source.Some? && t.source.value in w.states)
    ensures TransitionViolates(w, t, UnknownTarget(id)) <==> id == t.id && !(t.to.Named? && t.to.name in w.states)
    ensures TransitionViolates(w, t, LeavesTerminal(id)) <==>
      id == t.id && t.source.Some? && t.source.value in w.terminal
  {
  }

  /** The errors about the actors of a transition. */
  lemma ActorErrorsSay(w: Definition, t: Transition, id: string, actor: string)
    ensures TransitionViolates(w, t, NoActor(id)) <==> id == t.id && (t.actor == Absent || t.actor == Many([]))
    ensures TransitionViolates(w, t, UnknownActor(id, actor)) <==>
      id == t.id && Lists(t.actor, actor) && actor !in {"human", "agent", "system"}
    ensures TransitionViolates(w, t, ApprovalNotBoolean(id)) <==> id == t.id && t.requiresApproval == None
  {
  }

  /** The errors about a transition's decision point. */
  lemma DecisionErrorsSay(w: Definition, t: Transition, id: string, outcome: string)
    ensures TransitionViolates(w, t, UnknownDecisionPoint(id)) <==>
      id == t.id && t.decisionPoint.Some? && forall d :: !Names(w, t, d)
    ensures TransitionViolates(w, t, UndeclaredOutcome(id, outcome)) <==>
      id == t.id && Lists(t.onOutcome, outcome) && exists d :: Names(w, t, d) && outcome !in d.outcomes
    ensures TransitionViolates(w, t, DecisionElsewhere(id)) <==>
      id == t.id && exists d :: Names(w, t, d) && d.state != t.source
  {
    if DecisionOf(w, t).Some? {
      assert Names(w, t, DecisionOf(w, t).value);
    }
  }

  /** The errors about a declared state. */
  lemma StateErrorsSay(w: Definition, n: string, name: string)
    requires n in w.states
    ensures StateViolates(w, n, TerminalityDisagrees(name)) <==>
      name == n && (w.states[n].terminal <==> n !in w.terminal)
    ensures StateViolates(w, n, Unreachable(name)) <==> name == n && !Reachable(w, Some(n))
    ensures StateViolates(w, n, MissingObjective(name)) <==>
      name == n && w.states[n].allowsAgenticStep && !w.states[n].hasObjective
  {
  }

  /** The errors about a declared decision point. */
  lemma DecisionPointErrorsSay(w: Definition, n: string, name: string, actor: string)
    requires n in w.decisionPoints
    ensures DecisionViolates(w, n, DecisionInUnknownState(name)) <==>
      name == n && forall d :: w.decisionPoints[n] == Some(d) ==> !(d.state.Some? && d.state.value in w.states)
    ensures DecisionViolates(w, n, DecisionByUnknownActor(name, actor)) <==>
      && name == n && actor !in {"human", "agent", "system"}
      && exists d :: w.decisionPoints[n] == Some(d) && Lists(d.actor, actor)
  {
  }

  /** The errors about the definition as a whole. */
  lemma DefinitionErrorsSay(w: Definition, name: string)
    ensures DefinitionViolates(w, UndeclaredInitial(name)) <==> name == w.initial && name !in w.states
    ensures DefinitionViolates(w, UndeclaredTerminal(name)) <==> name in w.terminal && name !in w.states
    ensures DefinitionViolates(w, DuplicateId(name)) <==>
      exists i, j :: 0 <= i < j < |w.transitions| && w.transitions[i].id == name && w.transitions[j].id == name
    ensures DefinitionViolates(w, NoReturnToInvestigation) <==>
      !exists t :: t in w.transitions && t.source == Some("verifying") && t.to == Named("investigating")
    ensures DefinitionViolates(w, NothingCloses) <==> !exists t :: t in w.transitions && t.to == Named("closed")
  {
  }

  // ------------------------------------------------------------------ reachability

  /** Some reachable transition has this kind of target: the key missing, or present and null. */
  ghost predicate LeadsTo(w: Definition, to: Entry) {
    exists t :: t in w.transitions && t.to == to && Reachable(w, t.source)
  }

  datatype Scanned = Raises | Reached(states: set<Option<string>>)

  function Targets(w: Definition): set<Option<string>> {
    set t | t in w.transitions :: t.Target()
  }

  /** The rest of one pass over the transitions, from the `i`-th on. */
  function Pass(w: Definition, i: nat, reachable: set<Option<string>>): (r: Scanned)
    requires i <= |w.transitions|
    ensures r.Reached? ==> reachable <= r.states <= reachable + Targets(w)
    decreases |w.transitions| - i
  {
    if i == |w.transitions| then Reached(reachable)
    else
      var t := w.transitions[i];
      if t.source !in reachable || t.Target() in reachable then Pass(w, i + 1, reachable)
      else if t.to.Missing? then Raises
      else
        assert t.Target() in Targets(w);
        Pass(w, i + 1, reachable + {t.Target()})
  }

  /** Passes until one adds nothing. */
  function Passes(w: Definition, reachable: set<Option<string>>): Scanned
    decreases Targets(w) - reachable
  {
    match Pass(w, 0, reachable)
    case Raises => Raises
    case Reached(next) =>
      if next == reachable then Reached(next)
      else
        assert exists s :: s in next && s !in reachable && s in Targets(w);
        Passes(w, next)
  }

  /** The fixed point over the declared transitions. It computes exactly the reachable states, and
      raises only on a reachable transition without a `to` key; on such a one it does raise, unless a
      null target is reached as well. Then the order decides: it raises exactly when its passes come
      to a missing target first. */
  method ReachableStates(w: Definition) returns (raised: bool, reachable: set<Option<string>>)
    ensures !raised ==> forall s :: s in reachable <==> Reachable(w, s)
    ensures raised ==> LeadsTo(w, Missing)
    ensures LeadsTo(w, Missing) && !LeadsTo(w, Null) ==> raised
    ensures raised <==> Passes(w, {Some(w.initial)}).Raises?
  {
    raised := false;
    reachable := {Some(w.initial)};
    assert IsRun(w, []) && EndOf(w, []) == Some(w.initial);
    var changed := true;
    while changed
      invariant Some(w.initial) in reachable
      invariant None in reachable ==> LeadsTo(w, Null)
      invariant forall s :: s in reachable ==> Reachable(w, s)
      invariant !changed ==> forall t :: t in w.transitions && t.source in reachable ==> t.Target() in reachable
      invariant Passes(w, {Some(w.initial)}) == if changed then Passes(w, reachable) else Reached(reachable)
      decreases Targets(w) - reachable, changed
    {
      ghost var before := reachable;
      raised, reachable, changed := OnePass(w, reachable);
      if raised {
        return;
      }
      if changed {
        assert exists s :: s in reachable && s !in before && s in Targets(w);
      }
    }
    forall s | Reachable(w, s)
      ensures s in reachable
    {
      var p :| IsRun(w, p) && EndOf(w, p) == s;
      ClosedSetHoldsReachable(w, reachable, p);
    }
  }

  /** The body of the loop. */
  method OnePass(w: Definition, before: set<Option<string>>)
    returns (raised: bool, reachable: set<Option<string>>, changed: bool)
    requires None in before ==> LeadsTo(w, Null)
    requires forall s :: s in before ==> Reachable(w, s)
    ensures raised ==> Pass(w, 0, before).Raises? && LeadsTo(w, Missing)
    ensures !raised ==> Pass(w, 0, before) == Reached(reachable)
    ensures changed <==> reachable != before
    ensures None in reachable ==> LeadsTo(w, Null)
    ensures forall s :: s in reachable ==> Reachable(w, s)
    ensures !raised && !changed ==> forall t :: t in w.transitions && t.source in reachable ==> t.Target() in reachable
  {
    raised, reachable, changed := false, before, false;
    for i := 0 to |w.transitions|
      invariant before <= reachable && (changed <==> reachable != before)
      invariant None in reachable ==> LeadsTo(w, Null)
      invariant Pass(w, 0, before) == Pass(w, i, reachable)
      invariant forall s :: s in reachable ==> Reachable(w, s)
      invariant !changed ==> forall j :: 0 <= j < i && w.transitions[j].source in reachable ==>
                                w.transitions[j].Target() in reachable
    {
      var t := w.transitions[i];
      if t.source in reachable && t.Target() !in reachable {
        if t.to.Missing? {
          raised := true;
          return;
        }
        StepIsReachable(w, t);
        reachable := reachable + {t.Target()};
        changed := true;
      }
    }
  }

  lemma StepIsReachable(w: Definition, t: Transition)
    requires t in w.transitions && Reachable(w, t.source)
    ensures Reachable(w, t.Target())
  {
    var p :| IsRun(w, p) && EndOf(w, p) == t.source;
    RunExtends(w, p, t);
  }

  // ------------------------------------------------------------------ the checks

  method CheckDecisionPoints(w: Definition) returns (errors: seq<Error>)
    ensures forall e :: e in errors <==> exists n :: n in w.decisionPoints && DecisionViolates(w, n, e)
  {
    errors := [];
    var rest := w.decisionPoints.Keys;
    while rest != {}
      invariant rest <= w.decisionPoints.Keys
      invariant forall e :: e in errors <==> exists n :: n in w.decisionPoints.Keys - rest && DecisionViolates(w, n, e)
      decreases rest
    {
      var n :| n in rest;
      var found := CheckDecisionPoint(w, n);
      ghost var done := w.decisionPoints.Keys - rest;
      rest := rest - {n};
      assert w.decisionPoints.Keys - rest == done + {n};
      errors := errors + found;
    }
  }

  method CheckDecisionPoint(w: Definition, n: string) returns (errors: seq<Error>)
    requires n in w.decisionPoints
    ensures forall e :: e in errors <==> DecisionViolates(w, n, e)
  {
    errors := [];
    var d := w.decisionPoints[n];
    if d.None? || !Known(w, d.value.state) {
      errors := errors + [DecisionInUnknownState(n)];
    }
    if d.Some? {
      var actors := AsList(d.value.actor);
      for i := 0 to |actors|
        invariant forall e :: e in errors <==>
          DecisionViolates(w, n, e) && (e.DecisionByUnknownActor? ==> e.actor in actors[..i])
      {
        if actors[i] !in VALID_ACTORS {
          errors := errors + [DecisionByUnknownActor(n, actors[i])];
        }
        assert actors[..i + 1] == actors[..i] + [actors[i]];
      }
      assert actors[..|actors|] == actors;
    }
  }

  /** The per-transition checks, in the order of the source. */
  method CheckTransition(w: Definition, t: Transition) returns (r: Outcome)
    ensures r.Raised? <==> NullDecisionPoint(w, t)
    ensures r.Report? ==> forall e :: e in r.errors <==> TransitionViolates(w, t, e)
  {
    var ends := CheckEnds(w, t);
    var actors := CheckActors(t);
    var decisions := CheckDecisionUse(w, t);
    if NullDecisionPoint(w, t) {
      return Raised;
    }
    var approval := CheckApproval(w, t);
    r := Report(ends + actors + decisions + approval);
  }

  method CheckEnds(w: Definition, t: Transition) returns (errors: seq<Error>)
    ensures forall e :: e in errors <==> EndsViolate(w, t, e)
  {
    errors := [];
    if !Known(w, t.source) { errors := errors + [UnknownSource(t.id)]; }
    if !Known(w, t.Target()) { errors := errors + [UnknownTarget(t.id)]; }
    if Terminal(w, t.source) { errors := errors + [LeavesTerminal(t.id)]; }
  }

  method CheckActors(t: Transition) returns (errors: seq<Error>)
    ensures forall e :: e in errors <==> ActorsViolate(t, e)
  {
    var actors := AsList(t.actor);
    errors := UnknownActors(t.id, actors);
    if actors == [] { errors := errors + [NoActor(t.id)]; }
    if t.requiresApproval.None? { errors := errors + [ApprovalNotBoolean(t.id)]; }
  }

  method CheckApproval(w: Definition, t: Transition) returns (errors: seq<Error>)
    ensures forall e :: e in errors <==> ApprovalViolates(w, t, e)
  {
    errors := [];
    if Protected(w, t) {
      if t.requiresApproval != Some(true) { errors := errors + [ApprovalNotRequired(t.id)]; }
      if AsList(t.actor) != [HUMAN] { errors := errors + [NotHumanOnly(t.id)]; }
      if t.recordsApproval != Some(true) { errors := errors + [ApprovalNotRecorded(t.id)]; }
    }
  }

  predicate NullDecisionPoint(w: Definition, t: Transition) {
    t.decisionPoint.Some? && t.decisionPoint.value in w.decisionPoints && w.decisionPoints[t.decisionPoint.value].None?
  }

  method UnknownActors(id: string, actors: seq<string>) returns (errors: seq<Error>)
    ensures forall e :: e in errors <==>
      e.UnknownActor? && e.id == id && e.actor in actors && e.actor !in VALID_ACTORS
  {
    errors := [];
    for i := 0 to |actors|
      invariant forall e :: e in errors <==>
        e.UnknownActor? && e.id == id && e.actor in actors[..i] && e.actor !in VALID_ACTORS
    {
      if actors[i] !in VALID_ACTORS {
        errors := errors + [UnknownActor(id, actors[i])];
      }
      assert actors[..i + 1] == actors[..i] + [actors[i]];
    }
    assert actors[..|actors|] == actors;
  }

  method CheckDecisionUse(w: Definition, t: Transition) returns (errors: seq<Error>)
    ensures forall e :: e in errors <==> DecisionUseViolates(w, t, e)
  {
    errors := [];
    if t.decisionPoint.Some? {
      var d := DecisionOf(w, t);
      if d.None? {
        errors := [UnknownDecisionPoint(t.id)];
      } else {
        var outcomes := AsList(t.onOutcome);
        for i := 0 to |outcomes|
          invariant forall e :: e in errors <==>
            e.UndeclaredOutcome? && DecisionUseViolates(w, t, e) && e.outcome in outcomes[..i]
        {
          if outcomes[i] !in d.value.outcomes {
            errors := errors + [UndeclaredOutcome(t.id, outcomes[i])];
          }
          assert outcomes[..i + 1] == outcomes[..i] + [outcomes[i]];
        }
        assert outcomes[..|outcomes|] == outcomes;
        if d.value.state != t.source {
          errors := errors + [DecisionElsewhere(t.id)];
        }
      }
    }
  }

  method CheckTransitions(w: Definition) returns (r: Outcome)
    ensures r.Raised? <==> exists t :: t in w.transitions && NullDecisionPoint(w, t)
    ensures r.Report? ==> forall e :: e in r.errors <==>
      || (exists t :: t in w.transitions && TransitionViolates(w, t, e))
      || (e.DuplicateId? && DefinitionViolates(w, e))
  {
    var errors: seq<Error> := [];
    var ids: set<string> := {};
    for i := 0 to |w.transitions|
      invariant forall j :: 0 <= j < i ==> !NullDecisionPoint(w, w.transitions[j])
      invariant forall id :: id in ids <==> exists j :: 0 <= j < i && w.transitions[j].id == id
      invariant forall e :: e in errors <==>
        || (exists j :: 0 <= j < i && TransitionViolates(w, w.transitions[j], e))
        || (e.DuplicateId? && SameIdTwice(w, i, e.id))
    {
      var t := w.transitions[i];
      ghost var before := errors;
      if t.id in ids {
        errors := errors + [DuplicateId(t.id)];
      }
      DuplicatesGrow(w, i);
      ids := ids + {t.id};
      var checked := CheckTransition(w, t);
      if checked.Raised? {
        assert t in w.transitions;
        return Raised;
      }
      errors := errors + checked.errors;
    }
    r := Report(errors);
  }

  lemma DuplicatesGrow(w: Definition, i: nat)
    requires i < |w.transitions|
    ensures forall id :: SameIdTwice(w, i + 1, id) <==>
      || SameIdTwice(w, i, id)
      || (id == w.transitions[i].id && exists j :: 0 <= j < i && w.transitions[j].id == id)
  {
    var id := w.transitions[i].id;
    if j :| 0 <= j < i && w.transitions[j].id == id {
      assert SameIdTwice(w, i + 1, id);
    }
  }

  /** Terminal flags, reachability and agentic objectives, state by state. */
  method CheckStates(w: Definition, reachable: set<Option<string>>) returns (errors: seq<Error>)
    requires forall s :: s in reachable <==> Reachable(w, s)
    ensures forall e :: e in errors <==> exists n :: n in w.states && StateViolates(w, n, e)
  {
    errors := [];
    var rest := w.states.Keys;
    while rest != {}
      invariant rest <= w.states.Keys
      invariant forall e :: e in errors <==> exists n :: n in w.states.Keys - rest && StateViolates(w, n, e)
      decreases rest
    {
      var n :| n in rest;
      var found: seq<Error> := [];
      if w.states[n].terminal != (n in w.terminal) { found := found + [TerminalityDisagrees(n)]; }
      if Some(n) !in reachable { found := found + [Unreachable(n)]; }
      if w.states[n].allowsAgenticStep && !w.states[n].hasObjective { found := found + [MissingObjective(n)]; }
      assert forall e :: e in found <==> StateViolates(w, n, e);
      ghost var done := w.states.Keys - rest;
      rest := rest - {n};
      assert w.states.Keys - rest == done + {n};
      errors := errors + found;
    }
  }

  method CheckDeclaredStates(w: Definition) returns (errors: seq<Error>)
    ensures forall e :: e in errors <==> (e.UndeclaredInitial? || e.UndeclaredTerminal?) && DefinitionViolates(w, e)
  {
    errors := [];
    if w.initial !in w.states {
      errors := [UndeclaredInitial(w.initial)];
    }
    var rest := w.terminal;
    while rest != {}
      invariant rest <= w.terminal
      invariant forall e :: e in errors <==>
        || (e == UndeclaredInitial(w.initial) && w.initial !in w.states)
        || (e.UndeclaredTerminal? && e.name in w.terminal - rest && e.name !in w.states)
      decreases rest
    {
      var n :| n in rest;
      if n !in w.states {
        errors := errors + [UndeclaredTerminal(n)];
      }
      ghost var done := w.terminal - rest;
      rest := rest - {n};
      assert w.terminal - rest == done + {n};
    }
  }

  /** The behaviour the approved flow requires. */
  method CheckRequiredFlow(w: Definition) returns (errors: seq<Error>)
    ensures forall e :: e in errors <==>
      || ((e.NoReturnToInvestigation? || e.NothingCloses?) && DefinitionViolates(w, e))
      || exists t :: t in w.transitions && ClosingViolates(t, e)
  {
    var returns_ := false;
    var closes := false;
    errors := [];
    for i := 0 to |w.transitions|
      invariant returns_ <==> exists j :: 0 <= j < i && ReturnsToInvestigation(w.transitions[j])
      invariant closes <==> exists j :: 0 <= j < i && w.transitions[j].Target() == Some(CLOSED)
      invariant forall e :: e in errors <==> exists j :: 0 <= j < i && ClosingViolates(w.transitions[j], e)
    {
      var t := w.transitions[i];
      returns_ := returns_ || ReturnsToInvestigation(t);
      if t.Target() == Some(CLOSED) {
        closes := true;
        if t.source != Some(POSTMORTEM) {
          errors := errors + [ClosesWithoutPostmortem(t.id)];
        }
      }
    }
    if !returns_ {
      errors := errors + [NoReturnToInvestigation];
    }
    if !closes {
      errors := errors + [NothingCloses];
    }
  }

  /** `check_workflow`: a report lists exactly the violations, the checker raises only on a null
      decision point or a reachable transition without a target (which a null target come to before it
      hides), and it accepts exactly the well-formed definitions. */
  method CheckWorkflow(w: Definition) returns (r: Outcome)
    ensures r.Report? ==> forall e :: e in r.errors <==> Violates(w, e)
    ensures r.Raised? ==>
      (exists t :: t in w.transitions && NullDecisionPoint(w, t)) || LeadsTo(w, Missing)
    ensures (exists t :: t in w.transitions && NullDecisionPoint(w, t)) ==> r.Raised?
    ensures LeadsTo(w, Missing) && !LeadsTo(w, Null) ==> r.Raised?
    ensures r.Raised? <==>
      (exists t :: t in w.transitions && NullDecisionPoint(w, t)) || Passes(w, {Some(w.initial)}).Raises?
    ensures r == Report([]) <==> WellFormed(w)
  {
    var declared := CheckDeclaredStates(w);
    var decisions := CheckDecisionPoints(w);
    var checked := CheckTransitions(w);
    NoViolationIffWellFormed(w);
    if checked.Raised? {
      return Raised;
    }
    var raised, reachable := ReachableStates(w);
    if raised {
      return Raised;
    }
    var states := CheckStates(w, reachable);
    var flow := CheckRequiredFlow(w);
    var errors := declared + decisions + checked.errors + states + flow;
    r := Report(errors);
    forall e
      ensures e in errors <==> Violates(w, e)
    {
    }
    assert errors != [] ==> errors[0] in errors;
  }

  // ------------------------------------------------------------------ acceptance

  /** No error applies exactly when the definition is well-formed, and then nothing raises. */
  lemma NoViolationIffWellFormed(w: Definition)
    ensures (forall e :: !Violates(w, e)) <==> WellFormed(w)
    ensures WellFormed(w) ==> forall t :: t in w.transitions ==> !NullDecisionPoint(w, t) && !t.to.Missing?
  {
    DeclarationsViolationFree(w);
    forall n | n in w.states
      ensures StateWellFormed(w, n) <==> forall e :: !StateViolates(w, n, e)
    {
      StateViolationFree(w, n);
    }
    forall n | n in w.decisionPoints
      ensures DecisionWellFormed(w, w.decisionPoints[n]) <==> forall e :: !DecisionViolates(w, n, e)
    {
      DecisionViolationFree(w, n);
    }
    forall t | t in w.transitions
      ensures TransitionWellFormed(w, t) <==> forall e :: !TransitionViolates(w, t, e) && !ClosingViolates(t, e)
    {
      TransitionViolationFree(w, t);
    }
    PartsDecide(w);
  }

  /** Purely logical: the parts being free of errors is the whole being free of errors. */
  lemma PartsDecide(w: Definition)
    ensures (forall e :: !Violates(w, e)) <==>
      && (forall e :: !DefinitionViolates(w, e))
      && (forall n :: n in w.states ==> forall e :: !StateViolates(w, n, e))
      && (forall n :: n in w.decisionPoints ==> forall e :: !DecisionViolates(w, n, e))
      && (forall t :: t in w.transitions ==> forall e :: !TransitionViolates(w, t, e) && !ClosingViolates(t, e))
  {
    if forall e :: !Violates(w, e) {
      assert forall e :: !Violates(w, e) ==> !DefinitionViolates(w, e);
      forall n, e | n in w.states ensures !StateViolates(w, n, e) { assert !Violates(w, e); }
      forall n, e | n in w.decisionPoints ensures !DecisionViolates(w, n, e) { assert !Violates(w, e); }
      forall t, e | t in w.transitions ensures !TransitionViolates(w, t, e) && !ClosingViolates(t, e) {
        assert !Violates(w, e);
      }
    }
  }

  lemma DeclarationsViolationFree(w: Definition)
    ensures DeclarationsWellFormed(w) <==> forall e :: !DefinitionViolates(w, e)
  {
    if forall e :: !DefinitionViolates(w, e) {
      assert !DefinitionViolates(w, UndeclaredInitial(w.initial));
      forall n | n in w.terminal ensures n in w.states { assert !DefinitionViolates(w, UndeclaredTerminal(n)); }
      forall i, j | 0 <= i < j < |w.transitions|
        ensures w.transitions[i].id != w.transitions[j].id
      {
        assert !DefinitionViolates(w, DuplicateId(w.transitions[i].id));
      }
      assert !DefinitionViolates(w, NoReturnToInvestigation) && !DefinitionViolates(w, NothingCloses);
    }
  }

  lemma StateViolationFree(w: Definition, n: string)
    requires n in w.states
    ensures StateWellFormed(w, n) <==> forall e :: !StateViolates(w, n, e)
  {
    if forall e :: !StateViolates(w, n, e) {
      assert !StateViolates(w, n, TerminalityDisagrees(n)) && !StateViolates(w, n, Unreachable(n));
      assert !StateViolates(w, n, MissingObjective(n));
    }
  }

  lemma DecisionViolationFree(w: Definition, n: string)
    requires n in w.decisionPoints
    ensures DecisionWellFormed(w, w.decisionPoints[n]) <==> forall e :: !DecisionViolates(w, n, e)
  {
    if forall e :: !DecisionViolates(w, n, e) {
      assert !DecisionViolates(w, n, DecisionInUnknownState(n));
      var d := w.decisionPoints[n];
      forall a | a in AsList(d.value.actor)
        ensures a in VALID_ACTORS
      {
        assert !DecisionViolates(w, n, DecisionByUnknownActor(n, a));
      }
    }
  }

  /** A transition is well-formed exactly when no error applies to it. */
  lemma TransitionViolationFree(w: Definition, t: Transition)
    ensures TransitionWellFormed(w, t) <==> forall e :: !TransitionViolates(w, t, e) && !ClosingViolates(t, e)
  {
    EndsViolationFree(w, t);
    ActorsViolationFree(t);
    DecisionUseViolationFree(w, t);
    ApprovalViolationFree(w, t);
    if forall e :: !TransitionViolates(w, t, e) && !ClosingViolates(t, e) {
      assert forall e :: !TransitionViolates(w, t, e) ==> !EndsViolate(w, t, e);
      assert forall e :: !TransitionViolates(w, t, e) ==> !ActorsViolate(t, e);
      assert forall e :: !TransitionViolates(w, t, e) ==> !DecisionUseViolates(w, t, e);
      assert forall e :: !TransitionViolates(w, t, e) ==> !ApprovalViolates(w, t, e);
    }
  }

  lemma EndsViolationFree(w: Definition, t: Transition)
    ensures EndsWellFormed(w, t) <==> forall e :: !EndsViolate(w, t, e)
  {
    if forall e :: !EndsViolate(w, t, e) {
      assert !EndsViolate(w, t, UnknownSource(t.id)) && !EndsViolate(w, t, UnknownTarget(t.id));
      assert !EndsViolate(w, t, LeavesTerminal(t.id));
    }
  }

  lemma ActorsViolationFree(t: Transition)
    ensures ActorsWellFormed(t) <==> forall e :: !ActorsViolate(t, e)
  {
    if forall e :: !ActorsViolate(t, e) {
      assert !ActorsViolate(t, NoActor(t.id)) && !ActorsViolate(t, ApprovalNotBoolean(t.id));
      forall a | a in AsList(t.actor)
        ensures a in VALID_ACTORS
      {
        assert !ActorsViolate(t, UnknownActor(t.id, a));
      }
    }
  }

  lemma DecisionUseViolationFree(w: Definition, t: Transition)
    ensures DecisionUseWellFormed(w, t) <==> forall e :: !DecisionUseViolates(w, t, e)
  {
    if forall e :: !DecisionUseViolates(w, t, e) {
      assert !DecisionUseViolates(w, t, UnknownDecisionPoint(t.id));
      assert !DecisionUseViolates(w, t, DecisionElsewhere(t.id));
      forall o | t.decisionPoint.Some? && o in AsList(t.onOutcome)
        ensures o in DecisionOf(w, t).value.outcomes
      {
        assert !DecisionUseViolates(w, t, UndeclaredOutcome(t.id, o));
      }
    }
  }

  lemma ApprovalViolationFree(w: Definition, t: Transition)
    ensures ApprovalWellFormed(w, t) <==> forall e :: !ApprovalViolates(w, t, e) && !ClosingViolates(t, e)
  {
    if forall e :: !ApprovalViolates(w, t, e) && !ClosingViolates(t, e) {
      assert !ApprovalViolates(w, t, ApprovalNotRequired(t.id)) && !ApprovalViolates(w, t, NotHumanOnly(t.id));
      assert !ApprovalViolates(w, t, ApprovalNotRecorded(t.id)) && !ClosingViolates(t, ClosesWithoutPostmortem(t.id));
    }
  }
}
