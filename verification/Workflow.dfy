/** The incident workflow contract and what it means: its documents, its runs and the conditions a
definition must meet (`scripts/validate_incident_contracts.py`). */
module Workflow {
  import opened Options

  /** A YAML field that may hold one string or a list of them. */
  datatype Names = Absent | One(name: string) | Many(names: seq<string>)

  function AsList(n: Names): seq<string> {
    match n
    case Absent => []
    case One(name) => [name]
    case Many(names) => names
  }

  /** A key of a mapping: missing, present and null, or a name. Reading a missing key with `[]`
      raises, reading it with `get` does not. */
  datatype Entry = Missing | Null | Named(name: string)

  function Get(e: Entry): Option<string> {
    if e.Named? then Some(e.name) else None
  }

  datatype StateDefinition = StateDefinition(terminal: bool, allowsAgenticStep: bool, hasObjective: bool)

  datatype DecisionPoint = DecisionPoint(state: Option<string>, actor: Names, outcomes: set<string>, blocking: bool)

  /** `requiresApproval` and `recordsApproval` are None when absent or not a boolean. */
  datatype Transition = Transition(
    id: string, source: Option<string>, to: Entry, actor: Names, requiresApproval: Option<bool>,
    decisionPoint: Option<string>, onOutcome: Names, recordsApproval: Option<bool>)
  {
    function Target(): Option<string> {
      Get(to)
    }
  }

  /** A decision point declared with a null definition maps to None. */
  datatype Definition = Definition(
    states: map<string, StateDefinition>, transitions: seq<Transition>,
    decisionPoints: map<string, Option<DecisionPoint>>, initial: string, terminal: set<string>)

  const VALID_ACTORS := {"human", "agent", "system"}
  const CLOSED := "closed"
  const POSTMORTEM := "postmortem"
  const HUMAN := "human"
  const APPROVE := "approve"

  predicate Known(w: Definition, s: Option<string>) {
    s.Some? && s.value in w.states
  }

  predicate Terminal(w: Definition, s: Option<string>) {
    s.Some? && s.value in w.terminal
  }

  /** Closing, or approving at a blocking decision point. */
  predicate Protected(w: Definition, t: Transition) {
    || t.Target() == Some(CLOSED)
    || (DecisionOf(w, t).Some? && DecisionOf(w, t).value.blocking && APPROVE in AsList(t.onOutcome))
  }

  predicate HumanApproved(t: Transition) {
    t.requiresApproval == Some(true) && AsList(t.actor) == [HUMAN] && t.recordsApproval == Some(true)
  }

  // ------------------------------------------------------------------ runs

  /** A run: transitions of the definition, each leaving the state the one before entered. */
  ghost predicate IsRun(w: Definition, p: seq<Transition>) {
    p == [] ||
      var before, last := p[..|p| - 1], p[|p| - 1];
      last in w.transitions && last.source == EndOf(w, before) && IsRun(w, before)
  }

  function EndOf(w: Definition, p: seq<Transition>): Option<string> {
    if p == [] then Some(w.initial) else p[|p| - 1].Target()
  }

  ghost predicate Reachable(w: Definition, s: Option<string>) {
    exists p :: IsRun(w, p) && EndOf(w, p) == s
  }

  lemma RunExtends(w: Definition, p: seq<Transition>, t: Transition)
    requires IsRun(w, p) && t in w.transitions && t.source == EndOf(w, p)
    ensures IsRun(w, p + [t]) && EndOf(w, p + [t]) == t.Target()
  {
    assert (p + [t])[..|p|] == p;
  }

  /** Every step of a run is a transition leaving the state reached so far. */
  lemma {:induction false} StepOfRun(w: Definition, p: seq<Transition>, i: nat)
    requires IsRun(w, p) && i < |p|
    ensures p[i] in w.transitions && p[i].source == EndOf(w, p[..i])
    decreases |p|
  {
    if i < |p| - 1 {
      var before := p[..|p| - 1];
      StepOfRun(w, before, i);
      assert before[i] == p[i] && before[..i] == p[..i];
    }
  }

  /** Any set holding the start and closed under the transitions holds all that is reachable. */
  lemma {:induction false} ClosedSetHoldsReachable(w: Definition, closed: set<Option<string>>, p: seq<Transition>)
    requires Some(w.initial) in closed
    requires forall t :: t in w.transitions && t.source in closed ==> t.Target() in closed
    requires IsRun(w, p)
    ensures EndOf(w, p) in closed
    decreases |p|
  {
    if p == [] {
    } else {
      ClosedSetHoldsReachable(w, closed, p[..|p| - 1]);
    }
  }

  // ------------------------------------------------------------------ well-formed definitions

  ghost predicate UniqueIds(w: Definition) {
    forall i, j :: 0 <= i < j < |w.transitions| ==> w.transitions[i].id != w.transitions[j].id
  }

  predicate DecisionWellFormed(w: Definition, d: Option<DecisionPoint>) {
    d.Some? && Known(w, d.value.state) && forall a :: a in AsList(d.value.actor) ==> a in VALID_ACTORS
  }

  predicate EndsWellFormed(w: Definition, t: Transition) {
    Known(w, t.source) && Known(w, t.Target()) && !Terminal(w, t.source)
  }

  /** At least one actor, all known, and a boolean approval flag. */
  predicate ActorsWellFormed(t: Transition) {
    && AsList(t.actor) != []
    && (forall a :: a in AsList(t.actor) ==> a in VALID_ACTORS)
    && t.requiresApproval.Some?
  }

  /** The definition a transition's decision point names, if it is declared and not null. */
  function DecisionOf(w: Definition, t: Transition): Option<DecisionPoint> {
    if t.decisionPoint.Some? && t.decisionPoint.value in w.decisionPoints
    then w.decisionPoints[t.decisionPoint.value] else None
  }

  /** A decision point evaluated in its own state, with outcomes it declares. */
  predicate DecisionUseWellFormed(w: Definition, t: Transition) {
    t.decisionPoint.Some? ==>
      && DecisionOf(w, t).Some?
      && DecisionOf(w, t).value.state == t.source
      && forall o :: o in AsList(t.onOutcome) ==> o in DecisionOf(w, t).value.outcomes
  }

  predicate ApprovalWellFormed(w: Definition, t: Transition) {
    && (Protected(w, t) ==> HumanApproved(t))
    && (t.Target() == Some(CLOSED) ==> t.source == Some(POSTMORTEM))
  }

  predicate TransitionWellFormed(w: Definition, t: Transition) {
    EndsWellFormed(w, t) && ActorsWellFormed(t) && DecisionUseWellFormed(w, t) && ApprovalWellFormed(w, t)
  }

  ghost predicate DeclarationsWellFormed(w: Definition) {
    && w.initial in w.states
    && w.terminal <= w.states.Keys
    && UniqueIds(w)
    && (exists t :: t in w.transitions && ReturnsToInvestigation(t))
    && (exists t :: t in w.transitions && t.Target() == Some(CLOSED))
  }

  ghost predicate StateWellFormed(w: Definition, n: string)
    requires n in w.states
  {
    && (w.states[n].terminal <==> n in w.terminal)
    && Reachable(w, Some(n))
    && (w.states[n].allowsAgenticStep ==> w.states[n].hasObjective)
  }

  ghost predicate WellFormed(w: Definition) {
    && DeclarationsWellFormed(w)
    && (forall n :: n in w.states ==> StateWellFormed(w, n))
    && (forall n :: n in w.decisionPoints ==> DecisionWellFormed(w, w.decisionPoints[n]))
    && (forall t :: t in w.transitions ==> TransitionWellFormed(w, t))
  }

  predicate ReturnsToInvestigation(t: Transition) {
    t.source == Some("verifying") && t.Target() == Some("investigating")
  }

  // ------------------------------------------------------------------ what well-formedness means

  /** In every run of a well-formed workflow, at every step: both states are declared, the state
      left is not terminal, closing leaves `postmortem`, and a protected step is human-only,
      requires an approval and records it. */
  lemma EveryStepIsSafe(w: Definition, p: seq<Transition>, i: nat)
    requires WellFormed(w) && IsRun(w, p) && i < |p|
    ensures Known(w, EndOf(w, p[..i])) && Known(w, EndOf(w, p[..i + 1]))
    ensures !Terminal(w, EndOf(w, p[..i]))
    ensures EndOf(w, p[..i + 1]) == Some(CLOSED) ==> EndOf(w, p[..i]) == Some(POSTMORTEM) && HumanApproved(p[i])
    ensures Protected(w, p[i]) ==> HumanApproved(p[i])
  {
    StepOfRun(w, p, i);
    assert TransitionWellFormed(w, p[i]);
    assert p[..i + 1][|p[..i + 1]| - 1] == p[i];
  }

  /** The field names this string, alone or in a list. */
  predicate Lists(n: Names, x: string) {
    n == One(x) || (n.Many? && x in n.names)
  }

  /** The field names this string and nothing else. */
  predicate ListsOnly(n: Names, x: string) {
    n == One(x) || n == Many([x])
  }

  /** The transition leaves a declared state that is not terminal for a declared state, and enters
      `closed` only from `postmortem`. */
  predicate EndsAreSafe(w: Definition, t: Transition) {
    && t.source.Some? && t.source.value in w.states && t.source.value !in w.terminal
    && t.to.Named? && t.to.name in w.states
    && (t.to == Named("closed") ==> t.source == Some("postmortem"))
  }

  /** The outcome `approve` at a decision point declared blocking. */
  predicate ApprovesAtBlockingPoint(w: Definition, t: Transition) {
    && t.decisionPoint.Some? && t.decisionPoint.value in w.decisionPoints
    && w.decisionPoints[t.decisionPoint.value].Some? && w.decisionPoints[t.decisionPoint.value].value.blocking
    && Lists(t.onOutcome, "approve")
  }

  lemma WellFormedEndsAreSafe(w: Definition, t: Transition)
    requires EndsWellFormed(w, t) && ApprovalWellFormed(w, t)
    ensures EndsAreSafe(w, t)
  {
  }

  lemma WellFormedApprovals(w: Definition, t: Transition)
    requires ApprovalWellFormed(w, t) && (t.to == Named("closed") || ApprovesAtBlockingPoint(w, t))
    ensures t.requiresApproval == Some(true) && ListsOnly(t.actor, "human") && t.recordsApproval == Some(true)
  {
  }

  /** The same over the fields of the document. In every run of a well-formed workflow each step leaves a
      declared state that is not terminal for a declared state; a step into `closed` leaves
      `postmortem`; and a step into `closed`, or one with the outcome `approve` at a decision point
      declared blocking, is taken by `human` alone, requires an approval and records one. */
  lemma EveryStepIsApproved(w: Definition, p: seq<Transition>, i: nat)
    requires WellFormed(w) && IsRun(w, p) && i < |p|
    ensures EndsAreSafe(w, p[i])
    ensures p[i].to == Named("closed") || ApprovesAtBlockingPoint(w, p[i]) ==>
      p[i].requiresApproval == Some(true) && ListsOnly(p[i].actor, "human") && p[i].recordsApproval == Some(true)
  {
    StepOfRun(w, p, i);
    assert TransitionWellFormed(w, p[i]);
    WellFormedEndsAreSafe(w, p[i]);
    if p[i].to == Named("closed") || ApprovesAtBlockingPoint(w, p[i]) {
      WellFormedApprovals(w, p[i]);
    }
  }

  /** Nothing follows a terminal state. */
  lemma RunsEndAtTerminalStates(w: Definition, p: seq<Transition>, i: nat)
    requires WellFormed(w) && IsRun(w, p) && i <= |p| && Terminal(w, EndOf(w, p[..i]))
    ensures i == |p|
  {
    if i < |p| {
      EveryStepIsSafe(w, p, i);
    }
  }

  /** A run that closed came directly from `postmortem`, by a recorded human approval. */
  lemma ClosedRunsPassedPostmortem(w: Definition, p: seq<Transition>)
    requires WellFormed(w) && IsRun(w, p) && EndOf(w, p) == Some(CLOSED) && p != []
    ensures EndOf(w, p[..|p| - 1]) == Some(POSTMORTEM) && HumanApproved(p[|p| - 1])
  {
    EveryStepIsSafe(w, p, |p| - 1);
    assert p[..|p|] == p;
  }

  /** Every declared state, `closed` included, ends some run. */
  lemma EveryStateIsReached(w: Definition, n: string) returns (p: seq<Transition>)
    requires WellFormed(w) && (n in w.states || n == CLOSED)
    ensures IsRun(w, p) && EndOf(w, p) == Some(n)
  {
    if n == CLOSED {
      var t :| t in w.transitions && t.Target() == Some(CLOSED);
      assert TransitionWellFormed(w, t);
    }
    assert StateWellFormed(w, n);
    p :| IsRun(w, p) && EndOf(w, p) == Some(n);
  }

  // ------------------------------------------------------------------ a smallest example

  const VERIFYING := "verifying"
  const INVESTIGATING := "investigating"

  function HumanStep(id: string, source: string, to: string, approved: bool): Transition {
    Transition(id, Some(source), Named(to), One(HUMAN), Some(approved), None, Absent, Some(approved))
  }

  const RETURN := HumanStep("a", VERIFYING, INVESTIGATING, false)
  const REVIEW := HumanStep("b", VERIFYING, POSTMORTEM, false)
  const CLOSE := HumanStep("c", POSTMORTEM, CLOSED, true)

  function SmallestWorkflow(): Definition {
    var plain := StateDefinition(false, false, false);
    Definition(
      map[VERIFYING := plain, INVESTIGATING := plain, POSTMORTEM := plain, CLOSED := plain.(terminal := true)],
      [RETURN, REVIEW, CLOSE], map[], VERIFYING, {CLOSED})
  }

  lemma NamesDiffer()
    ensures CLOSED != VERIFYING && CLOSED != INVESTIGATING && CLOSED != POSTMORTEM
    ensures POSTMORTEM != VERIFYING && POSTMORTEM != INVESTIGATING && VERIFYING != INVESTIGATING
  {
    assert CLOSED[0] == 'c' && VERIFYING[0] == 'v' && INVESTIGATING[0] == 'i' && POSTMORTEM[0] == 'p';
  }

  lemma SmallestStatesAreReached(n: string)
    requires n in SmallestWorkflow().states
    ensures Reachable(SmallestWorkflow(), Some(n))
  {
    var w := SmallestWorkflow();
    assert IsRun(w, []) && EndOf(w, []) == Some(VERIFYING);
    assert RETURN == w.transitions[0] && REVIEW == w.transitions[1] && CLOSE == w.transitions[2];
    RunExtends(w, [], RETURN);
    RunExtends(w, [], REVIEW);
    RunExtends(w, [] + [REVIEW], CLOSE);
    assert n in {VERIFYING, INVESTIGATING, POSTMORTEM, CLOSED};
  }

  lemma SmallestTransitionsAreWellFormed(t: Transition)
    requires t in SmallestWorkflow().transitions
    ensures TransitionWellFormed(SmallestWorkflow(), t)
  {
    NamesDiffer();
    assert t in [RETURN, REVIEW, CLOSE];
  }

  lemma SmallestStatesAreWellFormed(n: string)
    requires n in SmallestWorkflow().states
    ensures StateWellFormed(SmallestWorkflow(), n)
  {
    NamesDiffer();
    SmallestStatesAreReached(n);
  }

  lemma SmallestDeclarationsAreWellFormed()
    ensures DeclarationsWellFormed(SmallestWorkflow())
  {
    var w := SmallestWorkflow();
    assert RETURN == w.transitions[0] && CLOSE == w.transitions[2];
    assert ReturnsToInvestigation(RETURN) && CLOSE.Target() == Some(CLOSED);
    assert RETURN.id[0] == 'a' && REVIEW.id[0] == 'b' && CLOSE.id[0] == 'c';
  }

  /** The conditions can be met: this definition meets them all, and one of its runs closes. */
  lemma SmallestWorkflowIsWellFormed()
    ensures WellFormed(SmallestWorkflow())
    ensures Reachable(SmallestWorkflow(), Some(CLOSED))
  {
    SmallestDeclarationsAreWellFormed();
    forall n | n in SmallestWorkflow().states
      ensures StateWellFormed(SmallestWorkflow(), n)
    {
      SmallestStatesAreWellFormed(n);
    }
    forall t | t in SmallestWorkflow().transitions
      ensures TransitionWellFormed(SmallestWorkflow(), t)
    {
      SmallestTransitionsAreWellFormed(t);
    }
    SmallestStatesAreReached(CLOSED);
  }
}
