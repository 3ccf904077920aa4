/** Deciding from a chat: the tap queue (revision 20261102_02, `src/sre_agent/chat/taps.py`) and the
compare-and-swap that applies a decision (`src/sre_agent/persistence/incidents.py`).

A button carries a token bound to one incident and to the version its message shows. Taps repeat,
several chats ask about the same proposal, the console decides too, and other transitions move the
incident meanwhile. A worker claims a tap, sends its command and records the outcome in separate
transactions; it may die in between, and a claim that has expired is taken by another worker while
the first may still be at work. */
module ChatDecisions {
  import opened Options

  datatype Choice = Approve | Reject

  /** What a decision message shows: the incident and the version reviewed. */
  datatype Binding = Binding(incident: string, version: nat)

  const DECIDED := 202
  const CONFLICT := 409 // a stale version, or a key reused for another command
  const MAX_ATTEMPTS := 5

  /** A row of `chat_taps`, one per idempotency key. `status` is None until the tap is done. */
  datatype Tap = Tap(key: string, token: string, choice: Choice, binding: Binding,
                     claimed: bool, attempts: nat, status: Option<nat>)

  type Worker = nat

  /** A claimed tap in a worker's hands: its row, its command, and the answer once it was sent. */
  datatype Flight = Flight(tap: nat, command: Applied, answer: Option<nat>)

  /** A decision the runtime applied: which incident, the version it was taken on, and the
      idempotency key that took it. */
  datatype Applied = Applied(incident: string, version: nat, key: string, choice: Choice)

  /** `bindings` holds the token of every decision message; a token is never reused. */
  datatype State = State(
    bindings: map<string, Binding>, taps: seq<Tap>, versions: map<string, nat>, applied: seq<Applied>,
    flights: map<Worker, Flight>)

  function TapKey(choice: Choice, token: string): string {
    (if choice == Approve then "telegram-a-" else "telegram-r-") + token
  }

  /** Each button has its own idempotency key. */
  lemma TapKeysAreInjective(choice: Choice, token: string, choice2: Choice, token2: string)
    ensures TapKey(choice, token) == TapKey(choice2, token2) <==> choice == choice2 && token == token2
  {
    assert TapKey(choice, token)[11..] == token && TapKey(choice2, token2)[11..] == token2;
    assert TapKey(choice, token)[9] == if choice == Approve then 'a' else 'r';
    assert TapKey(choice2, token2)[9] == if choice2 == Approve then 'a' else 'r';
  }

  // ------------------------------------------------------------------ steps

  function FindTap(taps: seq<Tap>, key: string): (i: Option<nat>)
    ensures i.Some? ==> i.value < |taps| && taps[i.value].key == key
    ensures i.None? ==> forall j :: 0 <= j < |taps| ==> taps[j].key != key
  {
    if taps == [] then None
    else if taps[|taps| - 1].key == key then Some(|taps| - 1)
    else FindTap(taps[..|taps| - 1], key)
  }

  /** `UPDATE incident.chat_taps` of one row. */
  function WithTap(s: State, i: nat, claimed: bool, attempts: nat, status: Option<nat>): State
    requires i < |s.taps|
  {
    s.(taps := s.taps[i := s.taps[i].(claimed := claimed, attempts := attempts, status := status)])
  }

  /** `queue_tap`: inserted once; a repeat is sent again only after an outcome that decided
      nothing. */
  function QueueTap(s: State, choice: Choice, token: string): State {
    if token !in s.bindings then s
    else
      var key := TapKey(choice, token);
      match FindTap(s.taps, key)
      case None => s.(taps := s.taps + [Tap(key, token, choice, s.bindings[token], false, 0, None)])
      case Some(i) =>
        if s.taps[i].status.Some? && s.taps[i].status.value >= 400
        then WithTap(s, i, false, 0, None)
        else s
  }

  predicate AppliedBy(applied: seq<Applied>, incident: string, key: string) {
    exists i :: 0 <= i < |applied| && applied[i].incident == incident && applied[i].key == key
  }

  datatype Sent = Sent(state: State, status: nat)

  /** The command path. Grants, attribution and the executor may refuse first, with any error
      status. An idempotency key that already decided answers its first result to the same command
      and a conflict to any other; else the decision applies only on the version it reviewed and
      advances it. */
  function Decide(s: State, a: Applied, refusal: Option<nat>): (r: Sent)
    ensures r.state.taps == s.taps && r.state.flights == s.flights && r.state.bindings == s.bindings
  {
    if refusal.Some? && refusal.value >= 400 then Sent(s, refusal.value)
    else if AppliedBy(s.applied, a.incident, a.key) then Sent(s, if a in s.applied then DECIDED else CONFLICT)
    else if a.incident in s.versions && s.versions[a.incident] == a.version then
      Sent(s.(versions := s.versions[a.incident := a.version + 1], applied := s.applied + [a]), DECIDED)
    else Sent(s, CONFLICT)
  }

  function CommandOf(t: Tap): Applied {
    Applied(t.binding.incident, t.binding.version, t.key, t.choice)
  }

  /** The first transaction of `TapWorker.run_once`: a tap that is not done, has attempts left and is
      unclaimed, or whose claim has expired. */
  function Claim(s: State, w: Worker, i: nat, expired: bool): State {
    if w in s.flights || i >= |s.taps| || s.taps[i].status.Some? || s.taps[i].attempts >= MAX_ATTEMPTS
       || (s.taps[i].claimed && !expired) then s
    else
      var flight := Flight(i, CommandOf(s.taps[i]), None);
      WithTap(s, i, true, s.taps[i].attempts + 1, None).(flights := s.flights[w := flight])
  }

  /** The command of the claimed tap. */
  function SendTap(s: State, w: Worker, refusal: Option<nat>): State {
    if w !in s.flights || s.flights[w].answer.Some? then s
    else
      var sent := Decide(s, s.flights[w].command, refusal);
      sent.state.(flights := s.flights[w := s.flights[w].(answer := Some(sent.status))])
  }

  /** The last transaction: whatever the row says by now, this worker's outcome is written. */
  function Record(s: State, w: Worker): State {
    if w !in s.flights || s.flights[w].answer.None? || s.flights[w].tap >= |s.taps| then s
    else
      var i := s.flights[w].tap;
      WithTap(s, i, s.taps[i].claimed, s.taps[i].attempts, s.flights[w].answer).(flights := s.flights - {w})
  }

  datatype Step =
    | Ask(token: string, binding: Binding)
    | TapButton(choice: Choice, token: string)
    | ClaimTap(worker: Worker, tap: nat, expired: bool)
    | SendCommand(worker: Worker, refusal: Option<nat>)
    | RecordOutcome(worker: Worker)
    | Die(worker: Worker)
    | Console(command: Applied, refusal: Option<nat>)
    | OtherTransition(incident: string)

  /** A message is asked with a version the incident has reached. */
  function Next(s: State, step: Step): State {
    match step
    case Ask(token, binding) =>
      if token in s.bindings || binding.incident !in s.versions || s.versions[binding.incident] < binding.version then s
      else s.(bindings := s.bindings[token := binding])
    case TapButton(choice, token) => QueueTap(s, choice, token)
    case ClaimTap(worker, tap, expired) => Claim(s, worker, tap, expired)
    case SendCommand(worker, refusal) => SendTap(s, worker, refusal)
    case RecordOutcome(worker) => Record(s, worker)
    case Die(worker) => s.(flights := s.flights - {worker})
    case Console(command, refusal) => Decide(s, command, refusal).state
    case OtherTransition(incident) =>
      if incident in s.versions then s.(versions := s.versions[incident := s.versions[incident] + 1]) else s
  }

  function Run(s: State, steps: seq<Step>): State
    decreases |steps|
  {
    if steps == [] then s else Run(Next(s, steps[0]), steps[1..])
  }

  function Start(versions: map<string, nat>): State {
    State(map[], [], versions, [], map[])
  }

  // ------------------------------------------------------------------ rows and workers

  /** A button's tap row says what the button says, about a version the incident has reached. */
  ghost predicate TapFaithful(s: State, t: Tap) {
    && t.token in s.bindings && t.key == TapKey(t.choice, t.token) && t.binding == s.bindings[t.token]
    && t.binding.incident in s.versions && t.binding.version <= s.versions[t.binding.incident]
  }

  ghost predicate FlightFaithful(s: State, f: Flight) {
    f.tap < |s.taps| && f.command == CommandOf(s.taps[f.tap])
  }

  /** One row a button, and rows, workers and messages agree. */
  ghost predicate Orderly(s: State) {
    && (forall i, j :: 0 <= i < j < |s.taps| ==> s.taps[i].key != s.taps[j].key)
    && (forall i :: 0 <= i < |s.taps| ==> TapFaithful(s, s.taps[i]))
    && (forall w :: w in s.flights ==> FlightFaithful(s, s.flights[w]))
    && (forall token :: token in s.bindings ==>
          && s.bindings[token].incident in s.versions
          && s.bindings[token].version <= s.versions[s.bindings[token].incident])
  }

  predicate SameButton(t: Tap, u: Tap) {
    t.key == u.key && t.token == u.token && t.choice == u.choice && t.binding == u.binding
  }

  /** Rows keep their buttons, messages stay, and versions only move up. */
  ghost predicate Extends(s: State, end: State) {
    && |s.taps| <= |end.taps| && (forall i :: 0 <= i < |s.taps| ==> SameButton(s.taps[i], end.taps[i]))
    && (forall token :: token in s.bindings ==> token in end.bindings && end.bindings[token] == s.bindings[token])
    && (forall incident :: incident in s.versions ==>
          incident in end.versions && s.versions[incident] <= end.versions[incident])
  }

  lemma StepExtends(s: State, step: Step)
    ensures Extends(s, Next(s, step))
  {
  }

  /** A flight is new only by a claim, and otherwise keeps its tap and command. */
  ghost predicate FlightsFollow(s: State, end: State) {
    forall w :: w in end.flights ==>
      if w in s.flights then end.flights[w].tap == s.flights[w].tap && end.flights[w].command == s.flights[w].command
      else
        && end.flights[w].tap < |s.taps| && end.flights[w].answer.None?
        && end.flights[w].command == CommandOf(s.taps[end.flights[w].tap])
  }

  lemma StepKeepsFlights(s: State, step: Step)
    ensures FlightsFollow(s, Next(s, step))
  {
  }

  /** New rows are faithful to their message, and no two rows share a key. */
  ghost predicate RowsFollow(s: State, end: State) {
    && (forall i, j :: 0 <= i < j < |end.taps| ==> end.taps[i].key != end.taps[j].key)
    && (forall i :: |s.taps| <= i < |end.taps| ==> TapFaithful(end, end.taps[i]))
  }

  lemma StepKeepsButtonsApart(s: State, step: Step)
    requires Orderly(s)
    ensures RowsFollow(s, Next(s, step))
  {
    StepExtends(s, step);
    if !step.TapButton? {
      assert |Next(s, step).taps| == |s.taps|;
    }
  }

  /** New messages show a version the incident has reached. */
  ghost predicate MessagesFollow(s: State, end: State) {
    forall token :: token in end.bindings && token !in s.bindings ==>
      && end.bindings[token].incident in end.versions
      && end.bindings[token].version <= end.versions[end.bindings[token].incident]
  }

  lemma StepKeepsMessages(s: State, step: Step)
    ensures MessagesFollow(s, Next(s, step))
  {
    if !step.Ask? {
      assert Next(s, step).bindings == s.bindings;
    }
  }

  lemma OrderlyFollows(s: State, end: State)
    requires Orderly(s) && Extends(s, end) && FlightsFollow(s, end) && RowsFollow(s, end) && MessagesFollow(s, end)
    ensures Orderly(end)
  {
    forall i | 0 <= i < |s.taps|
      ensures TapFaithful(end, end.taps[i])
    {
      assert TapFaithful(s, s.taps[i]) && SameButton(s.taps[i], end.taps[i]);
    }
    forall w | w in end.flights
      ensures FlightFaithful(end, end.flights[w])
    {
      assert w in s.flights ==> FlightFaithful(s, s.flights[w]);
      assert SameButton(s.taps[end.flights[w].tap], end.taps[end.flights[w].tap]);
    }
  }

  lemma StepIsOrderly(s: State, step: Step)
    requires Orderly(s)
    ensures Orderly(Next(s, step))
  {
    StepExtends(s, step);
    StepKeepsFlights(s, step);
    StepKeepsButtonsApart(s, step);
    StepKeepsMessages(s, step);
    OrderlyFollows(s, Next(s, step));
  }

  // ------------------------------------------------------------------ decisions

  /** At most one decision per reviewed version, and at most one per idempotency key. */
  ghost predicate AppliedOnce(applied: seq<Applied>) {
    forall i, j :: 0 <= i < j < |applied| && applied[i].incident == applied[j].incident ==>
      applied[i].version != applied[j].version && applied[i].key != applied[j].key
  }

  /** Decisions were taken on versions the incident has left behind. */
  ghost predicate Decisive(s: State) {
    && AppliedOnce(s.applied)
    && (forall a :: a in s.applied ==> a.incident in s.versions && a.version < s.versions[a.incident])
  }

  lemma DecideIsDecisive(s: State, a: Applied, refusal: Option<nat>)
    requires Decisive(s)
    ensures Decisive(Decide(s, a, refusal).state)
    ensures s.applied <= Decide(s, a, refusal).state.applied
  {
    var end := Decide(s, a, refusal).state;
    if end != s {
      forall i | 0 <= i < |s.applied|
        ensures s.applied[i].incident == a.incident ==> s.applied[i].version != a.version && s.applied[i].key != a.key
      {
        assert s.applied[i] in s.applied;
      }
    }
  }

  lemma StepIsDecisive(s: State, step: Step)
    requires Decisive(s)
    ensures Decisive(Next(s, step)) && s.applied <= Next(s, step).applied
  {
    if step.SendCommand? && step.worker in s.flights {
      DecideIsDecisive(s, s.flights[step.worker].command, step.refusal);
    } else if step.Console? {
      DecideIsDecisive(s, step.command, step.refusal);
    }
  }

  // ------------------------------------------------------------------ outcomes

  /** Every outcome, recorded or still in a worker's hands, that says decided is of a command that did
      decide. */
  ghost predicate Truthful(s: State) {
    && (forall i :: 0 <= i < |s.taps| && s.taps[i].status == Some(DECIDED) ==> CommandOf(s.taps[i]) in s.applied)
    && (forall w :: w in s.flights && s.flights[w].answer == Some(DECIDED) ==> s.flights[w].command in s.applied)
  }

  /** A row's outcome is its own from before, or that of a worker that held it. */
  ghost predicate OutcomesFollow(s: State, end: State) {
    forall i :: 0 <= i < |end.taps| && end.taps[i].status.Some? ==>
      || (i < |s.taps| && end.taps[i].status == s.taps[i].status)
      || exists w :: w in s.flights && s.flights[w].tap == i && s.flights[w].answer == end.taps[i].status
  }

  lemma OutcomesComeFrom(s: State, step: Step)
    ensures OutcomesFollow(s, Next(s, step))
  {
    var end := Next(s, step);
    if step.RecordOutcome? && end != s {
      assert s.flights[step.worker].answer == end.taps[s.flights[step.worker].tap].status;
    } else {
      assert forall i :: 0 <= i < |s.taps| ==> end.taps[i].status.None? || end.taps[i].status == s.taps[i].status;
    }
  }

  /** A worker's answer is its own from before, or that of the command it just sent. */
  ghost predicate AnswersFollow(s: State, end: State, refusal: Option<nat>) {
    forall w :: w in end.flights && end.flights[w].answer.Some? ==>
      && w in s.flights
      && (|| end.flights[w] == s.flights[w]
          || (var sent := Decide(s, s.flights[w].command, refusal);
              end.flights[w].answer == Some(sent.status)
              && end.applied == sent.state.applied && end.versions == sent.state.versions))
  }

  function RefusalOf(step: Step): Option<nat> {
    if step.SendCommand? then step.refusal else None
  }

  lemma AnswersComeFrom(s: State, step: Step)
    ensures AnswersFollow(s, Next(s, step), RefusalOf(step))
  {
  }

  lemma DecidedIsApplied(s: State, a: Applied, refusal: Option<nat>)
    requires Decide(s, a, refusal).status == DECIDED
    ensures a in Decide(s, a, refusal).state.applied
  {
  }

  lemma RowsAreTruthful(s: State, end: State, i: nat)
    requires Orderly(s) && Truthful(s) && Extends(s, end) && OutcomesFollow(s, end)
    requires i < |end.taps| && end.taps[i].status == Some(DECIDED)
    ensures CommandOf(end.taps[i]) in s.applied
  {
    if w :| w in s.flights && s.flights[w].tap == i && s.flights[w].answer == end.taps[i].status {
      assert FlightFaithful(s, s.flights[w]);
    }
    assert i < |s.taps| && SameButton(s.taps[i], end.taps[i]);
  }

  lemma TruthfulFollows(s: State, end: State, refusal: Option<nat>)
    requires Orderly(s) && Truthful(s) && s.applied <= end.applied
    requires Extends(s, end) && FlightsFollow(s, end) && OutcomesFollow(s, end) && AnswersFollow(s, end, refusal)
    ensures Truthful(end)
  {
    assert forall a :: a in s.applied ==> a in end.applied;
    forall i | 0 <= i < |end.taps| && end.taps[i].status == Some(DECIDED)
      ensures CommandOf(end.taps[i]) in end.applied
    {
      RowsAreTruthful(s, end, i);
    }
    forall w | w in end.flights && end.flights[w].answer == Some(DECIDED)
      ensures end.flights[w].command in end.applied
    {
      if end.flights[w] != s.flights[w] {
        DecidedIsApplied(s, s.flights[w].command, refusal);
      }
    }
  }

  lemma StepIsTruthful(s: State, step: Step)
    requires Orderly(s) && Decisive(s) && Truthful(s)
    ensures Truthful(Next(s, step))
  {
    StepIsDecisive(s, step);
    StepExtends(s, step);
    StepKeepsFlights(s, step);
    OutcomesComeFrom(s, step);
    AnswersComeFrom(s, step);
    TruthfulFollows(s, Next(s, step), RefusalOf(step));
  }

  ghost predicate Consistent(s: State) {
    Orderly(s) && Decisive(s) && Truthful(s)
  }

  lemma NextIsConsistent(s: State, step: Step)
    requires Consistent(s)
    ensures Consistent(Next(s, step))
  {
    StepIsOrderly(s, step);
    StepIsDecisive(s, step);
    StepIsTruthful(s, step);
  }

  lemma {:induction false} RunIsConsistent(s: State, steps: seq<Step>)
    requires Consistent(s)
    ensures Consistent(Run(s, steps))
    decreases |steps|
  {
    if steps == [] {
    } else {
      NextIsConsistent(s, steps[0]);
      RunIsConsistent(Next(s, steps[0]), steps[1..]);
    }
  }

  /** Any mix of taps, repeated taps, chats, workers on the same tap, expired claims, deaths, console
      decisions, refusals and other transitions applies at most one decision per incident version and
      per key, keeps at most one row per button, and a tap answered as decided did decide. */
  lemma AtMostOneDecisionPerVersion(versions: map<string, nat>, steps: seq<Step>)
    ensures var end := Run(Start(versions), steps);
      && AppliedOnce(end.applied)
      && (forall i, j :: 0 <= i < j < |end.taps| ==> end.taps[i].key != end.taps[j].key)
      && (forall i :: 0 <= i < |end.taps| && end.taps[i].status == Some(DECIDED) ==>
            CommandOf(end.taps[i]) in end.applied)
  {
    RunIsConsistent(Start(versions), steps);
  }

  // ------------------------------------------------------------------ what an outcome means

  /** The command did not decide and never will. */
  ghost predicate Hopeless(s: State, a: Applied) {
    && a !in s.applied
    && (AppliedBy(s.applied, a.incident, a.key) || (a.incident in s.versions && a.version < s.versions[a.incident]))
  }

  /** Every outcome is decided or hopeless. */
  ghost predicate Final(s: State) {
    && (forall i :: 0 <= i < |s.taps| && s.taps[i].status.Some? && s.taps[i].status != Some(DECIDED) ==>
          Hopeless(s, CommandOf(s.taps[i])))
    && (forall w :: w in s.flights && s.flights[w].answer.Some? && s.flights[w].answer != Some(DECIDED) ==>
          Hopeless(s, s.flights[w].command))
  }

  /** No worker's command is refused by a guard. */
  predicate Unrefused(step: Step) {
    step.SendCommand? && step.refusal.Some? ==> step.refusal.value < 400
  }

  lemma HopelessStays(s: State, step: Step, a: Applied)
    requires Hopeless(s, a)
    ensures Hopeless(Next(s, step), a)
  {
    var end := Next(s, step);
    if n :| 0 <= n < |s.applied| && s.applied[n].incident == a.incident && s.applied[n].key == a.key {
      assert s.applied <= end.applied ==> end.applied[n] == s.applied[n];
    }
  }

  /** An unrefused command that does not decide is hopeless. */
  lemma UndecidedIsHopeless(s: State, a: Applied, refusal: Option<nat>)
    requires a.incident in s.versions && a.version <= s.versions[a.incident]
    requires refusal.Some? ==> refusal.value < 400
    requires Decide(s, a, refusal).status != DECIDED
    ensures Hopeless(s, a) && Decide(s, a, refusal).state == s
  {
    assert a in s.applied ==> AppliedBy(s.applied, a.incident, a.key);
  }

  lemma FinalFollows(s: State, end: State, refusal: Option<nat>)
    requires Orderly(s) && Final(s) && (refusal.Some? ==> refusal.value < 400)
    requires Extends(s, end) && FlightsFollow(s, end) && OutcomesFollow(s, end) && AnswersFollow(s, end, refusal)
    requires forall a :: Hopeless(s, a) ==> Hopeless(end, a)
    ensures Final(end)
  {
    forall i | 0 <= i < |end.taps| && end.taps[i].status.Some? && end.taps[i].status != Some(DECIDED)
      ensures Hopeless(end, CommandOf(end.taps[i]))
    {
      if w :| w in s.flights && s.flights[w].tap == i && s.flights[w].answer == end.taps[i].status {
        assert FlightFaithful(s, s.flights[w]);
      }
      assert i < |s.taps| && SameButton(s.taps[i], end.taps[i]);
      assert Hopeless(s, CommandOf(s.taps[i]));
    }
    forall w | w in end.flights && end.flights[w].answer.Some? && end.flights[w].answer != Some(DECIDED)
      ensures Hopeless(end, end.flights[w].command)
    {
      if end.flights[w] != s.flights[w] {
        assert FlightFaithful(s, s.flights[w]) && TapFaithful(s, s.taps[s.flights[w].tap]);
        UndecidedIsHopeless(s, s.flights[w].command, refusal);
      }
      assert Hopeless(s, s.flights[w].command);
    }
  }

  lemma StepIsFinal(s: State, step: Step)
    requires Consistent(s) && Final(s) && Unrefused(step)
    ensures Final(Next(s, step))
  {
    StepExtends(s, step);
    StepKeepsFlights(s, step);
    OutcomesComeFrom(s, step);
    AnswersComeFrom(s, step);
    forall a | Hopeless(s, a)
      ensures Hopeless(Next(s, step), a)
    {
      HopelessStays(s, step, a);
    }
    FinalFollows(s, Next(s, step), RefusalOf(step));
  }

  lemma {:induction false} RunIsFinal(s: State, steps: seq<Step>)
    requires Consistent(s) && Final(s) && forall i :: 0 <= i < |steps| ==> Unrefused(steps[i])
    ensures Consistent(Run(s, steps)) && Final(Run(s, steps))
    decreases |steps|
  {
    if steps == [] {
    } else {
      NextIsConsistent(s, steps[0]);
      StepIsFinal(s, steps[0]);
      RunIsFinal(Next(s, steps[0]), steps[1..]);
    }
  }

  /** While no guard refuses a worker, a done tap says decided if and only if its command decided,
      however many workers held it and whoever wrote last. */
  lemma OutcomeIsExactWithoutRefusals(versions: map<string, nat>, steps: seq<Step>, i: nat)
    requires forall k :: 0 <= k < |steps| ==> Unrefused(steps[k])
    requires i < |Run(Start(versions), steps).taps| && Run(Start(versions), steps).taps[i].status.Some?
    ensures var end := Run(Start(versions), steps);
      end.taps[i].status == Some(DECIDED) <==> CommandOf(end.taps[i]) in end.applied
  {
    RunIsFinal(Start(versions), steps);
  }

  /** With a refusal it need not: whenever one worker's command decides and another, after the first
      one's claim expired, has the same tap refused and writes last, the row says refused although the
      decision stands. */
  lemma RefusedReplayHidesTheDecision(s: State, v: Worker, w: Worker, i: nat, refusal: nat)
    requires Orderly(s) && v != w && v !in s.flights && w !in s.flights && refusal >= 400
    requires i < |s.taps| && s.taps[i].status.None? && !s.taps[i].claimed && s.taps[i].attempts + 2 <= MAX_ATTEMPTS
    requires !AppliedBy(s.applied, s.taps[i].binding.incident, s.taps[i].key)
    requires s.versions[s.taps[i].binding.incident] == s.taps[i].binding.version
    ensures var sent := SendTap(Claim(SendTap(Claim(s, v, i, false), v, None), w, i, true), w, Some(refusal));
      var end := Record(Record(sent, v), w);
      end.taps[i].status == Some(refusal) && CommandOf(end.taps[i]) in end.applied
  {
    var s1 := Claim(s, v, i, false);
    var s2 := SendTap(s1, v, None);
    assert s2.applied == s.applied + [CommandOf(s.taps[i])] && s2.flights[v].answer == Some(DECIDED);
    var s3 := Claim(s2, w, i, true);
    var s4 := SendTap(s3, w, Some(refusal));
    assert s4.flights[w].answer == Some(refusal) && s4.flights[v] == s2.flights[v];
    var s5 := Record(s4, v);
    assert s5.flights[w] == s4.flights[w];
  }

  /** The two buttons of one message, and the messages of all chats about one proposal, share the
      bound version: once one of them decided, no other decides, whatever the guards say; the same
      one is answered its first result unless refused, and a reused key decides nothing else. */
  lemma RivalsAreStale(s: State, a: Applied, rival: Applied, refusal: Option<nat>)
    requires Consistent(s) && a.incident in s.versions && s.versions[a.incident] == a.version
    requires !AppliedBy(s.applied, a.incident, a.key)
    requires rival.incident == a.incident && rival.version == a.version && rival != a
    ensures Decide(s, a, None).status == DECIDED
    ensures var after := Decide(s, a, None).state;
      && Decide(after, a, None) == Sent(after, DECIDED)
      && Decide(after, a, refusal).state == after
      && Decide(after, rival, refusal).state == after
      && Decide(after, rival, refusal).status >= 400
  {
    var after := Decide(s, a, None).state;
    assert after.applied[|s.applied|] == a;
    assert forall b :: b in after.applied ==> b == a || b in s.applied;
    assert rival !in after.applied;
  }
}
