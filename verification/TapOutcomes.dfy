/** What pressing a button leads to: when a press decides, when it is stuck, and what its outcome means
while no claim expires (`src/sre_agent/chat/taps.py`). */
module TapOutcomes {
  import opened Options
  import opened ChatDecisions

  // ------------------------------------------------------------------ what a press leads to

  /** What a press does: a new button gets its row, one that was answered with an error waits again
      from the start, and any other stays as it is. */
  lemma PressSays(s: State, choice: Choice, token: string)
    requires Orderly(s)
    ensures var end := Next(s, TapButton(choice, token));
      var key := (if choice == Approve then "telegram-a-" else "telegram-r-") + token;
      && end == s.(taps := end.taps)
      && (token !in s.bindings ==> end.taps == s.taps)
      && (token in s.bindings && (forall i :: 0 <= i < |s.taps| ==> s.taps[i].key != key) ==>
            end.taps == s.taps + [Tap(key, token, choice, s.bindings[token], false, 0, None)])
      && (forall i :: token in s.bindings && 0 <= i < |s.taps| && s.taps[i].key == key ==>
            end.taps ==
              if s.taps[i].status.Some? && s.taps[i].status.value >= 400
              then s.taps[i := Tap(key, token, choice, s.bindings[token], false, 0, None)] else s.taps)
  {
    forall i | 0 <= i < |s.taps| && s.taps[i].key == TapKey(choice, token)
      ensures s.taps[i].choice == choice && s.taps[i].token == token && FindTap(s.taps, s.taps[i].key) == Some(i)
    {
      assert TapFaithful(s, s.taps[i]);
      TapKeysAreInjective(choice, token, s.taps[i].choice, s.taps[i].token);
    }
  }

  /** The command path over the tables: what is applied, and what is answered. */
  lemma DecideSays(s: State, a: Applied, refusal: Option<nat>)
    ensures var r := Decide(s, a, refusal);
      var refused := refusal.Some? && refusal.value >= 400;
      var reused := exists b :: b in s.applied && b.incident == a.incident && b.key == a.key;
      if !refused && !reused && a.incident in s.versions && s.versions[a.incident] == a.version then
        && r.status == 202 && r.state.applied == s.applied + [a]
        && r.state.versions == s.versions[a.incident := s.versions[a.incident] + 1]
      else
        && r.state == s
        && r.status == if refused then refusal.value else if a in s.applied then 202 else 409
  {
    if b :| b in s.applied && b.incident == a.incident && b.key == a.key {
      var i :| 0 <= i < |s.applied| && s.applied[i] == b;
      assert AppliedBy(s.applied, a.incident, a.key);
    }
    assert a in s.applied ==> AppliedBy(s.applied, a.incident, a.key);
  }

  /** The row of this key can still be sent, once pressed again. */
  predicate CanBeSent(taps: seq<Tap>, key: string) {
    forall i :: 0 <= i < |taps| && taps[i].key == key ==>
      if taps[i].status.None? then taps[i].attempts < 5 else taps[i].status.value >= 400
  }

  function RowOf(taps: seq<Tap>, key: string): nat {
    match FindTap(taps, key)
    case Some(i) => i
    case None => |taps|
  }

  /** A press, and one pass of a worker that nothing refuses. */
  function PressAndPass(s: State, choice: Choice, token: string, w: Worker, i: nat): State {
    var claimed := Next(Next(s, TapButton(choice, token)), ClaimTap(w, i, true));
    Next(Next(claimed, SendCommand(w, None)), RecordOutcome(w))
  }

  lemma PressedRowWaits(s: State, choice: Choice, token: string)
    requires Orderly(s) && token in s.bindings && CanBeSent(s.taps, TapKey(choice, token))
    ensures var end, i := QueueTap(s, choice, token), RowOf(s.taps, TapKey(choice, token));
      && i < |end.taps| && end.taps[i].status.None? && end.taps[i].attempts < 5
      && CommandOf(end.taps[i]) ==
         Applied(s.bindings[token].incident, s.bindings[token].version, TapKey(choice, token), choice)
      && end == s.(taps := end.taps)
  {
    PressSays(s, choice, token);
    var i := RowOf(s.taps, TapKey(choice, token));
    if i < |s.taps| {
      assert TapFaithful(s, s.taps[i]);
      TapKeysAreInjective(choice, token, s.taps[i].choice, s.taps[i].token);
    }
  }

  /** Claiming, sending and recording a row that waits on the current version. */
  lemma WaitingRowDecides(s: State, w: Worker, i: nat)
    requires w !in s.flights && i < |s.taps| && s.taps[i].status.None? && s.taps[i].attempts < 5
    requires var a := CommandOf(s.taps[i]);
      !AppliedBy(s.applied, a.incident, a.key) && a.incident in s.versions && s.versions[a.incident] == a.version
    ensures var a, end := CommandOf(s.taps[i]), Record(SendTap(Claim(s, w, i, true), w, None), w);
      && end.applied == s.applied + [a] && end.versions == s.versions[a.incident := a.version + 1]
      && i < |end.taps| && end.taps[i].key == a.key && end.taps[i].status == Some(202)
      && end.flights == s.flights
  {
    var claimed := Claim(s, w, i, true);
    assert claimed.flights == s.flights[w := Flight(i, CommandOf(s.taps[i]), None)];
    var sent := SendTap(claimed, w, None);
    assert sent.flights == claimed.flights[w := claimed.flights[w].(answer := Some(202))];
    assert Record(sent, w).flights == s.flights;
  }

  /** A press decides: whenever the message's version is still the incident's, the key decided
      nothing yet and the row can be sent, one undisturbed pass applies exactly this choice on this
      version and answers the button so. */
  lemma PressDecides(s: State, choice: Choice, token: string, w: Worker)
    requires Orderly(s) && w !in s.flights && token in s.bindings
    requires CanBeSent(s.taps, TapKey(choice, token))
    requires !AppliedBy(s.applied, s.bindings[token].incident, TapKey(choice, token))
    requires s.versions[s.bindings[token].incident] == s.bindings[token].version
    ensures var i, b := RowOf(s.taps, TapKey(choice, token)), s.bindings[token];
      var end := PressAndPass(s, choice, token, w, i);
      && end.applied == s.applied + [Applied(b.incident, b.version, TapKey(choice, token), choice)]
      && end.versions == s.versions[b.incident := b.version + 1]
      && i < |end.taps| && end.taps[i].key == TapKey(choice, token) && end.taps[i].status == Some(202)
      && end.flights == s.flights
  {
    var i := RowOf(s.taps, TapKey(choice, token));
    PressedRowWaits(s, choice, token);
    WaitingRowDecides(QueueTap(s, choice, token), w, i);
  }

  /** From the start: the first press of a message that shows the incident's version decides. */
  lemma FirstPressDecides(versions: map<string, nat>, incident: string, token: string, choice: Choice, w: Worker)
    requires incident in versions
    ensures var asked := Next(Start(versions), Ask(token, Binding(incident, versions[incident])));
      var end := PressAndPass(asked, choice, token, w, 0);
      var key := (if choice == Approve then "telegram-a-" else "telegram-r-") + token;
      && end.applied == [Applied(incident, versions[incident], key, choice)]
      && end.versions == versions[incident := versions[incident] + 1]
      && |end.taps| == 1 && end.taps[0].key == key && end.taps[0].status == Some(202)
  {
    var asked := Next(Start(versions), Ask(token, Binding(incident, versions[incident])));
    PressDecides(asked, choice, token, w);
    PressSays(asked, choice, token);
    assert PressAndPass(asked, choice, token, w, 0).applied ==
      asked.applied + [Applied(incident, versions[incident], TapKey(choice, token), choice)];
  }

  /** The row waits, has used up its attempts, and no worker holds it. */
  ghost predicate Exhausted(s: State, i: nat) {
    && i < |s.taps| && s.taps[i].status.None? && s.taps[i].attempts >= 5
    && forall w :: w in s.flights ==> s.flights[w].tap != i
  }

  lemma StepKeepsExhausted(s: State, step: Step, i: nat)
    requires Exhausted(s, i)
    ensures Exhausted(Next(s, step), i) && Next(s, step).taps[i] == s.taps[i]
  {
    match step
    case ClaimTap(w, j, _) => assert i == j ==> Next(s, step) == s;
    case SendCommand(w, _) =>
    case _ =>
  }

  /** But a row whose five claims all died without an outcome is stuck: a press waits for an outcome
      that no worker will ever write, over every run. */
  lemma {:induction false} ExhaustedTapIsStuck(s: State, steps: seq<Step>, i: nat)
    requires Exhausted(s, i)
    ensures i < |Run(s, steps).taps| && Run(s, steps).taps[i] == s.taps[i] && Exhausted(Run(s, steps), i)
    decreases |steps|
  {
    if steps == [] {
    } else {
      StepKeepsExhausted(s, steps[0], i);
      ExhaustedTapIsStuck(Next(s, steps[0]), steps[1..], i);
    }
  }

  // ------------------------------------------------------------------ runs in which no claim expires

  ghost predicate Held(taps: seq<Tap>, f: Flight) {
    f.tap < |taps| && taps[f.tap].claimed && taps[f.tap].status.None?
  }

  /** A held row is claimed and not done, and one worker holds it. */
  ghost predicate Exclusive(s: State) {
    && (forall w :: w in s.flights ==> Held(s.taps, s.flights[w]))
    && (forall v, w :: v in s.flights && w in s.flights && s.flights[v].tap == s.flights[w].tap ==> v == w)
  }

  predicate Unexpired(step: Step) {
    step.ClaimTap? ==> !step.expired
  }

  lemma ClaimIsExclusive(s: State, w: Worker, i: nat)
    requires Exclusive(s)
    ensures Exclusive(Claim(s, w, i, false))
  {
    var end := Claim(s, w, i, false);
    if end != s {
      forall v | v in s.flights
        ensures s.flights[v].tap != i && Held(end.taps, s.flights[v])
      {
        assert Held(s.taps, s.flights[v]);
      }
    }
  }

  lemma RecordIsExclusive(s: State, w: Worker)
    requires Exclusive(s)
    ensures Exclusive(Record(s, w))
  {
    var end := Record(s, w);
    forall v | v in end.flights
      ensures Held(end.taps, end.flights[v])
    {
      assert Held(s.taps, s.flights[v]);
    }
  }

  lemma QueueIsExclusive(s: State, choice: Choice, token: string)
    requires Exclusive(s)
    ensures Exclusive(QueueTap(s, choice, token))
  {
    var end := QueueTap(s, choice, token);
    forall v | v in end.flights
      ensures Held(end.taps, end.flights[v])
    {
      assert Held(s.taps, s.flights[v]);
    }
  }

  lemma SendIsExclusive(s: State, w: Worker, refusal: Option<nat>)
    requires Exclusive(s)
    ensures Exclusive(SendTap(s, w, refusal))
  {
    var end := SendTap(s, w, refusal);
    forall v | v in end.flights
      ensures Held(end.taps, end.flights[v])
    {
      assert Held(s.taps, s.flights[v]);
    }
  }

  lemma StepIsExclusive(s: State, step: Step)
    requires Exclusive(s) && Unexpired(step)
    ensures Exclusive(Next(s, step))
  {
    match step
    case ClaimTap(w, i, _) => ClaimIsExclusive(s, w, i);
    case RecordOutcome(w) => RecordIsExclusive(s, w);
    case TapButton(choice, token) => QueueIsExclusive(s, choice, token);
    case SendCommand(w, refusal) => SendIsExclusive(s, w, refusal);
    case _ =>
  }

  /** The console brings its own keys. */
  ghost predicate OwnKey(step: Step) {
    step.Console? ==> forall choice, token :: step.command.key != TapKey(choice, token)
  }

  predicate HasRow(taps: seq<Tap>, key: string) {
    exists i :: 0 <= i < |taps| && taps[i].key == key
  }

  /** The row was not answered as decided, and no worker is about to. */
  predicate Waits(t: Tap) {
    if t.status.None? then !t.claimed else t.status != Some(DECIDED)
  }

  /** Only pressed buttons decide, and no command of a row that waits or failed, or in the hands of a
      worker that was not answered as decided, has decided. */
  ghost predicate Undecided(s: State) {
    && (forall a, choice, token :: a in s.applied && a.key == TapKey(choice, token) ==> HasRow(s.taps, a.key))
    && (forall i :: 0 <= i < |s.taps| && Waits(s.taps[i]) ==> CommandOf(s.taps[i]) !in s.applied)
    && (forall w :: w in s.flights && s.flights[w].answer != Some(DECIDED) ==> s.flights[w].command !in s.applied)
  }

  lemma RowsKeepKeys(taps: seq<Tap>, taps': seq<Tap>)
    requires |taps| <= |taps'| && forall i :: 0 <= i < |taps| ==> taps[i].key == taps'[i].key
    ensures forall key :: HasRow(taps, key) ==> HasRow(taps', key)
  {
    forall key | HasRow(taps, key)
      ensures HasRow(taps', key)
    {
      var i :| 0 <= i < |taps| && taps[i].key == key;
      assert taps'[i].key == key;
    }
  }

  lemma QueueIsUndecided(s: State, choice: Choice, token: string)
    requires Undecided(s)
    ensures Undecided(QueueTap(s, choice, token))
  {
    var end := QueueTap(s, choice, token);
    RowsKeepKeys(s.taps, end.taps);
    forall i | 0 <= i < |end.taps| && Waits(end.taps[i])
      ensures CommandOf(end.taps[i]) !in end.applied
    {
      if i < |s.taps| {
        assert Waits(s.taps[i]) && CommandOf(end.taps[i]) == CommandOf(s.taps[i]);
      } else {
        assert end.taps[i].key == TapKey(choice, token) && !HasRow(s.taps, TapKey(choice, token));
      }
    }
  }

  lemma ClaimIsUndecided(s: State, w: Worker, i: nat)
    requires Undecided(s)
    ensures Undecided(Claim(s, w, i, false))
  {
    var end := Claim(s, w, i, false);
    if end != s {
      RowsKeepKeys(s.taps, end.taps);
      assert Waits(s.taps[i]);
    }
  }

  lemma RecordIsUndecided(s: State, w: Worker)
    requires Orderly(s) && Undecided(s)
    ensures Undecided(Record(s, w))
  {
    var end := Record(s, w);
    if end != s {
      RowsKeepKeys(s.taps, end.taps);
      assert FlightFaithful(s, s.flights[w]);
    }
  }

  /** What a worker's command decides is its own row's and no other's. */
  lemma SendIsUndecided(s: State, w: Worker, refusal: Option<nat>)
    requires Orderly(s) && Exclusive(s) && Undecided(s)
    ensures Undecided(SendTap(s, w, refusal))
  {
    var end := SendTap(s, w, refusal);
    if end.applied != s.applied {
      var f := s.flights[w];
      assert FlightFaithful(s, f) && Held(s.taps, f) && end.applied == s.applied + [f.command];
      assert s.taps[f.tap].key == f.command.key;
      forall i | 0 <= i < |s.taps| && CommandOf(s.taps[i]) == f.command
        ensures i == f.tap
      {
      }
      forall v | v in s.flights && s.flights[v].command == f.command
        ensures v == w
      {
        assert FlightFaithful(s, s.flights[v]);
      }
    }
  }

  lemma ConsoleIsUndecided(s: State, a: Applied, refusal: Option<nat>)
    requires Orderly(s) && Undecided(s) && forall choice, token :: a.key != TapKey(choice, token)
    ensures Undecided(Decide(s, a, refusal).state)
  {
    assert forall i :: 0 <= i < |s.taps| ==> TapFaithful(s, s.taps[i]);
    assert forall w :: w in s.flights ==> FlightFaithful(s, s.flights[w]);
  }

  lemma StepIsUndecided(s: State, step: Step)
    requires Orderly(s) && Exclusive(s) && Undecided(s) && Unexpired(step) && OwnKey(step)
    ensures Undecided(Next(s, step))
  {
    match step
    case TapButton(choice, token) => QueueIsUndecided(s, choice, token);
    case ClaimTap(w, i, _) => ClaimIsUndecided(s, w, i);
    case SendCommand(w, refusal) => SendIsUndecided(s, w, refusal);
    case RecordOutcome(w) => RecordIsUndecided(s, w);
    case Console(a, refusal) => ConsoleIsUndecided(s, a, refusal);
    case _ =>
  }

  lemma {:induction false} RunIsUndecided(s: State, steps: seq<Step>)
    requires Consistent(s) && Exclusive(s) && Undecided(s)
    requires forall k :: 0 <= k < |steps| ==> Unexpired(steps[k]) && OwnKey(steps[k])
    ensures Consistent(Run(s, steps)) && Exclusive(Run(s, steps)) && Undecided(Run(s, steps))
    decreases |steps|
  {
    if steps == [] {
    } else {
      NextIsConsistent(s, steps[0]);
      StepIsExclusive(s, steps[0]);
      StepIsUndecided(s, steps[0]);
      RunIsUndecided(Next(s, steps[0]), steps[1..]);
    }
  }

  /** While no claim expires, no two workers ever hold the same tap, and a done tap says decided if
      and only if its command decided, whatever the guards refused and however often it was pressed
      again. */
  lemma OutcomeIsExactWithoutExpiry(versions: map<string, nat>, steps: seq<Step>)
    requires forall k :: 0 <= k < |steps| ==> Unexpired(steps[k]) && OwnKey(steps[k])
    ensures var end := Run(Start(versions), steps);
      && (forall v, w :: v in end.flights && w in end.flights && v != w ==> end.flights[v].tap != end.flights[w].tap)
      && (forall i :: 0 <= i < |end.taps| && end.taps[i].status.Some? ==>
            (end.taps[i].status == Some(DECIDED) <==> CommandOf(end.taps[i]) in end.applied))
  {
    RunIsUndecided(Start(versions), steps);
  }
}
