/** The operator account bootstrap (`scripts/bootstrap_otel_account.py`) against an unreliable
remote service.

Every AWS call may succeed, fail before or after taking effect, or be cut by a crash of the
process before or after the effect, and other parties may remove keys or hold keys of their own at
any call. The local lock serialises the runs, so a run is one method call. */
module AccountBootstrap {
  import opened Options

  type KeyId = nat

  /** What becomes of one remote call. */
  datatype Fault = Succeeds | FailsBefore | FailsAfter | CrashesBefore | CrashesAfter

  /** How the answer to a successful call reads. An answer to a key creation may lack the secret,
      or be unreadable altogether, although the key exists; an answer to a key listing may be an
      object without the list, which the code reads as an empty listing. */
  datatype Answer = Usable | Mismatching | Unreadable | LacksSecret | LacksKeyId | LacksList

  /** One call's weather: its fault, its answer, and what others did to the keys meanwhile. */
  datatype Event = Event(fault: Fault, answer: Answer, removed: set<KeyId>, otherKeys: nat)

  datatype Template = Operator | Runtime | Budget

  /** The calls a run makes, with what it learned from those it relies on later. */
  datatype Call =
    | RootIdentity(matches: bool)
    | OperatorIdentity
    | ValidateTemplate(template: Template, valid: bool)
    | DeployStack(template: Template)
    | DescribeOperator
    | ListKeys(seenEmpty: bool, hidLiveKey: bool)
    | CreateKey
    | DeleteKey(key: KeyId)

  predicate Mutates(c: Call) {
    c.DeployStack? || c.CreateKey? || c.DeleteKey?
  }

  /** The `otel-demo` section of the credentials file. */
  datatype Section = Section(key: KeyId, secret: nat)

  /** The local side of a run: arguments, the lock, the templates and the credentials file.
      `meanwhile` is an edit by another program between the read of the file and its replacement. */
  datatype Local = Local(
    accountGiven: bool, apply: bool, inputsValid: bool, locked: bool, templatesPresent: bool,
    fileReadable: bool, write: WriteFault, meanwhile: Option<Option<Section>>)

  datatype WriteFault = Written | WriteFails | CrashesBeforeRead | CrashesBeforeWrite | CrashesAfterWrite

  /** The section as it was, or as an editor left it between the read of the file and its
      replacement. */
  predicate Untouched(was: Option<Section>, now: Option<Section>, meanwhile: Option<Option<Section>>) {
    now == was || (was.None? && meanwhile == Some(now))
  }

  datatype Outcome =
    | Created(key: KeyId)
    | AlreadyConfigured
    | KeyRemoved            // the local write failed; the new key was removed
    | CleanupUnconfirmed    // the new key may still exist
    | UnusableKey           // IAM did not return a usable key
    | Refused               // stopped before creating a key
    | Crashed

  // ------------------------------------------------------------------ the discipline of a trace

  ghost predicate ValidatedBefore(trace: seq<Call>, i: nat, t: Template)
    requires i <= |trace|
  {
    exists j :: 0 <= j < i && trace[j] == ValidateTemplate(t, true)
  }

  /** The last call listed the keys, and the answer read as empty. */
  ghost predicate SawNoKeys(trace: seq<Call>) {
    trace != [] && trace[|trace| - 1].ListKeys? && trace[|trace| - 1].seenEmpty
  }

  ghost predicate Disciplined(trace: seq<Call>) {
    forall i :: 0 <= i < |trace| && Mutates(trace[i]) ==>
      && (exists j :: 0 <= j < i && trace[j] == RootIdentity(true))
      && (forall t :: ValidatedBefore(trace, i, t))
      && (trace[i].CreateKey? ==> SawNoKeys(trace[..i]))
  }

  const STACKS := [Operator, Runtime, Budget]

  /** The order of a run's calls: identity, validations, deployments, description, listing, creation and,
      if need be, deletion. */
  ghost predicate Fits(i: nat, c: Call) {
    if i == 0 then c.RootIdentity?
    else if i <= 3 then c.ValidateTemplate? && c.template == STACKS[i - 1]
    else if i <= 6 then c.DeployStack? && c.template == STACKS[i - 4]
    else if i == 7 then c.DescribeOperator?
    else if i == 8 then c.ListKeys?
    else if i == 9 then c.CreateKey?
    else i == 10 && c.DeleteKey?
  }

  /** What a check must have said for the run to go on. */
  ghost predicate Passed(c: Call) {
    && (c.RootIdentity? ==> c.matches)
    && (c.ValidateTemplate? ==> c.valid)
    && (c.ListKeys? ==> c.seenEmpty)
  }

  ghost predicate Scripted(trace: seq<Call>) {
    && (forall i :: 0 <= i < |trace| ==> Fits(i, trace[i]))
    && (forall i :: 0 <= i < |trace| - 1 ==> Passed(trace[i]))
  }

  /** The next call in the order, every check so far having passed. */
  ghost predicate MayCall(trace: seq<Call>, c: Call) {
    Scripted(trace) && Fits(|trace|, c) && (trace != [] ==> Passed(trace[|trace| - 1]))
  }

  lemma ExtendTrace(trace: seq<Call>, c: Call)
    requires MayCall(trace, c)
    ensures Scripted(trace + [c])
  {
    var longer := trace + [c];
    forall i | 0 <= i < |longer| - 1
      ensures Passed(longer[i])
    {
      assert longer[i] == trace[i];
    }
  }

  /** Following the order is keeping the discipline. */
  lemma ScriptedIsDisciplined(trace: seq<Call>)
    requires Scripted(trace)
    ensures Disciplined(trace)
  {
    forall i | 0 <= i < |trace| && Mutates(trace[i])
      ensures exists j :: 0 <= j < i && trace[j] == RootIdentity(true)
      ensures forall t :: ValidatedBefore(trace, i, t)
      ensures trace[i].CreateKey? ==> SawNoKeys(trace[..i])
    {
      assert i >= 4 && Fits(0, trace[0]) && Fits(1, trace[1]) && Fits(2, trace[2]) && Fits(3, trace[3]);
      assert trace[0] == RootIdentity(true);
      forall t
        ensures ValidatedBefore(trace, i, t)
      {
        var k := match t case Operator => 1 case Runtime => 2 case Budget => 3;
        assert trace[k] == ValidateTemplate(t, true);
      }
      if trace[i].CreateKey? {
        assert i == 9 && Fits(8, trace[8]) && trace[..i][|trace[..i]| - 1] == trace[8];
      }
    }
  }

  /** The listing of the run hid a live key of the tool. */
  ghost predicate Hid(trace: seq<Call>) {
    |trace| > 8 && trace[8].ListKeys? && trace[8].hidLiveKey
  }

  // ------------------------------------------------------------------ the account

  datatype Status = Answered | Failed | Died

  /** How a call that met this fault looks to the run. */
  predicate Seen(status: Status, fault: Fault) {
    match status
    case Answered => fault == Succeeds
    case Failed => fault == FailsBefore || fault == FailsAfter
    case Died => fault == CrashesBefore || fault == CrashesAfter
  }

  /** The keys left after `n` calls from the `t`-th on, others having removed theirs. */
  function Surviving(keys: set<KeyId>, weather: nat -> Event, t: nat, n: nat): set<KeyId> {
    if n == 0 then keys else Surviving(keys, weather, t, n - 1) - weather(t + n - 1).removed
  }

  lemma {:induction false} SurvivingAdds(keys: set<KeyId>, weather: nat -> Event, t: nat, m: nat, n: nat)
    ensures Surviving(Surviving(keys, weather, t, m), weather, t + m, n) == Surviving(keys, weather, t, m + n)
  {
    if n == 0 {
    } else {
      SurvivingAdds(keys, weather, t, m, n - 1);
    }
  }

  predicate AllSucceed(weather: nat -> Event, t: nat, n: nat) {
    forall j :: t <= j < t + n ==> weather(j).fault == Succeeds
  }

  lemma FirstAndRestSucceed(weather: nat -> Event, t: nat, n: nat)
    ensures AllSucceed(weather, t, n + 1) <==> weather(t).fault == Succeeds && AllSucceed(weather, t + 1, n)
  {
    assert AllSucceed(weather, t, n + 1) ==> weather(t).fault == Succeeds;
  }

  /** The identity and the three validations succeed. */
  predicate ClearsAt(weather: nat -> Event, t: nat) {
    AllSucceed(weather, t, 4) && weather(t).answer == Usable
  }

  /** The listing is answered with an empty list, or without one. */
  predicate ListsNothing(keys: set<KeyId>, e: Event) {
    && e.fault == Succeeds
    && (e.answer == LacksList || (e.answer == Usable && keys - e.removed == {} && e.otherKeys == 0))
  }

  /** The three deployments and the description succeed, and the listing reads as empty. */
  predicate PreparesAt(keys: set<KeyId>, weather: nat -> Event, t: nat) {
    && AllSucceed(weather, t, 4) && weather(t + 3).answer == Usable
    && ListsNothing(Surviving(keys, weather, t, 4), weather(t + 4))
  }

  predicate DeploysAt(keys: set<KeyId>, weather: nat -> Event, t: nat) {
    ClearsAt(weather, t) && PreparesAt(Surviving(keys, weather, t, 4), weather, t + 4)
  }

  /** Everything up to the creation of the key goes well, from the `t`-th call on. */
  predicate Proceeds(local: Local, profile: Option<Section>, keys: set<KeyId>, weather: nat -> Event, t: nat) {
    && local.accountGiven && local.apply && local.inputsValid && local.locked && local.fileReadable
    && profile.None? && local.templatesPresent && DeploysAt(keys, weather, t)
  }

  /** The created key is deleted again: its secret is lacking, or writing it down failed. */
  predicate CleansUp(creation: Event, write: WriteFault) {
    && creation.fault == Succeeds
    && (creation.answer == LacksSecret || (creation.answer == Usable && write == WriteFails))
  }

  ghost function Cleanup(creation: Event, write: WriteFault, key: KeyId): seq<Call> {
    if CleansUp(creation, write) then [DeleteKey(key)] else []
  }

  /** What creating and persisting comes to, by the creation's event, the write and the event of a
      deletion. */
  predicate Provides(creation: Event, write: WriteFault, deletion: Event, key: KeyId, r: Outcome) {
    match r
    case Created(k) => k == key && creation.fault == Succeeds && creation.answer == Usable && write == Written
    case KeyRemoved =>
      creation.fault == Succeeds && creation.answer == Usable && write == WriteFails && deletion.fault == Succeeds
    case CleanupUnconfirmed =>
      && creation.fault == Succeeds && Seen(Failed, deletion.fault)
      && (creation.answer == LacksSecret || (creation.answer == Usable && write == WriteFails))
    case UnusableKey =>
      && creation.fault == Succeeds
      && (|| creation.answer in {Mismatching, Unreadable, LacksKeyId, LacksList}
          || (creation.answer == LacksSecret && deletion.fault == Succeeds))
    case Refused => Seen(Failed, creation.fault)
    case Crashed =>
      || Seen(Died, creation.fault)
      || (&& creation.fault == Succeeds && Seen(Died, deletion.fault)
          && (creation.answer == LacksSecret || (creation.answer == Usable && write == WriteFails)))
      || (&& creation.fault == Succeeds && creation.answer == Usable
          && write in {CrashesBeforeRead, CrashesBeforeWrite, CrashesAfterWrite})
    case AlreadyConfigured => false
  }

  /** The ten calls of a run succeed with usable answers, and nobody else holds a key. */
  predicate FairWeather(weather: nat -> Event, t: nat) {
    forall j :: t <= j < t + 10 ==>
      weather(j).fault == Succeeds && weather(j).answer == Usable && weather(j).otherKeys == 0
  }

  lemma {:induction false} NothingSurvives(weather: nat -> Event, t: nat, n: nat)
    ensures Surviving({}, weather, t, n) == {}
  {
    if n > 0 {
      NothingSurvives(weather, t, n - 1);
    }
  }

  lemma FairWeatherDeploys(weather: nat -> Event, t: nat)
    requires FairWeather(weather, t)
    ensures DeploysAt({}, weather, t) && weather(t + 9).fault == Succeeds && weather(t + 9).answer == Usable
  {
    NothingSurvives(weather, t, 4);
    NothingSurvives(weather, t + 4, 4);
  }

  class Account {
    var toolKeys: set<KeyId>     // live keys of the dedicated user that this tool created
    var otherKeys: nat           // live keys of that user created elsewhere
    var nextKey: KeyId
    var profile: Option<Section>
    var tick: nat                // calls made so far
    ghost var trace: seq<Call>   // calls of the current run
    ghost var misled: bool       // some listing so far hid a live key of the tool

    ghost predicate Valid()
      reads this
    {
      (!misled ==> |toolKeys| <= 1) && forall k :: k in toolKeys ==> k < nextKey
    }

    constructor ()
      ensures Valid() && toolKeys == {} && profile == None && !misled
    {
      toolKeys, otherKeys, nextKey, profile, tick := {}, 0, 0, None, 0;
      trace, misled := [], false;
    }

    /** Others may remove keys and hold any number of their own. */
    method Interfere(e: Event)
      requires Valid()
      modifies this`toolKeys, this`otherKeys
      ensures Valid() && toolKeys == old(toolKeys) - e.removed && otherKeys == e.otherKeys
    {
      SubsetIsSmaller(toolKeys - e.removed, toolKeys);
      toolKeys, otherKeys := toolKeys - e.removed, e.otherKeys;
    }

    /** A call with no effect on the keys. */
    method Ask(weather: nat -> Event, ghost c: Call) returns (status: Status, answer: Answer)
      requires Valid()
      modifies this`toolKeys, this`otherKeys, this`tick, this`trace
      ensures Valid() && trace == old(trace) + [c]
      ensures toolKeys == old(toolKeys) - old(weather(tick).removed)
      ensures tick == old(tick) + 1 && Seen(status, old(weather(tick)).fault) && answer == old(weather(tick)).answer
    {
      var e := weather(tick);
      tick := tick + 1;
      trace := trace + [c];
      Interfere(e);
      answer := e.answer;
      status := match e.fault
        case Succeeds => Answered
        case FailsBefore => Failed
        case FailsAfter => Failed
        case CrashesBefore => Died
        case CrashesAfter => Died;
    }

    /** `create-access-key`. The key exists whenever the call took effect, whatever was answered. */
    method Create(weather: nat -> Event) returns (status: Status, answer: Answer, key: KeyId)
      requires Valid() && (misled || toolKeys == {})
      modifies this`toolKeys, this`otherKeys, this`tick, this`trace, this`nextKey
      ensures Valid() && trace == old(trace) + [CreateKey]
      ensures tick == old(tick) + 1 && Seen(status, old(weather(tick)).fault) && answer == old(weather(tick)).answer
      ensures key == old(nextKey) && toolKeys <= old(toolKeys) + {key}
      ensures status == Answered ==> key in toolKeys
    {
      var e := weather(tick);
      tick := tick + 1;
      trace := trace + [CreateKey];
      Interfere(e);
      key := nextKey;
      answer := e.answer;
      if e.fault in {Succeeds, FailsAfter, CrashesAfter} {
        toolKeys := toolKeys + {key};
        assert !misled ==> toolKeys == {key};
        nextKey := nextKey + 1;
      }
      status := match e.fault
        case Succeeds => Answered
        case FailsBefore => Failed
        case FailsAfter => Failed
        case CrashesBefore => Died
        case CrashesAfter => Died;
    }

    /** `delete-access-key` of the key just created. */
    method Delete(weather: nat -> Event, key: KeyId) returns (status: Status)
      requires Valid()
      modifies this`toolKeys, this`otherKeys, this`tick, this`trace
      ensures Valid() && toolKeys <= old(toolKeys) && trace == old(trace) + [DeleteKey(key)]
      ensures status == Answered ==> key !in toolKeys
      ensures tick == old(tick) + 1 && Seen(status, old(weather(tick)).fault)
    {
      var e := weather(tick);
      tick := tick + 1;
      trace := trace + [DeleteKey(key)];
      Interfere(e);
      if e.fault in {Succeeds, FailsAfter, CrashesAfter} {
        SubsetIsSmaller(toolKeys - {key}, toolKeys);
        toolKeys := toolKeys - {key};
      }
      status := match e.fault
        case Succeeds => Answered
        case FailsBefore => Failed
        case FailsAfter => Failed
        case CrashesBefore => Died
        case CrashesAfter => Died;
    }

    /** The identity check and the three validations, before anything changes. */
    method Clear(weather: nat -> Event) returns (r: Option<Outcome>)
      requires Valid() && trace == []
      modifies this`toolKeys, this`otherKeys, this`tick, this`trace
      ensures Valid() && Scripted(trace) && |trace| <= 4 && toolKeys <= old(toolKeys)
      ensures r.None? <==> ClearsAt(weather, old(tick))
      ensures r.None? ==> |trace| == 4 && Passed(trace[3]) && tick == old(tick) + 4
      ensures r.None? ==> toolKeys == Surviving(old(toolKeys), weather, old(tick), 4)
      ensures r.Some? ==> r.value in {Refused, Crashed}
    {
      ghost var keys, t := toolKeys, tick;
      var e := weather(tick);
      var matches := e.fault == Succeeds && e.answer == Usable;
      FirstAndRestSucceed(weather, tick, 3);
      ExtendTrace(trace, RootIdentity(matches));
      var status, answer := Ask(weather, RootIdentity(matches));
      if status == Died { return Some(Crashed); }
      if !matches { return Some(Refused); }
      assert Surviving(keys, weather, t, 1) == toolKeys;
      r := ValidateAll(weather);
      SurvivingAdds(keys, weather, t, 1, 3);
    }

    /** All three templates, before any is deployed. */
    method ValidateAll(weather: nat -> Event) returns (r: Option<Outcome>)
      requires Valid() && Scripted(trace) && |trace| == 1 && Passed(trace[0])
      modifies this`toolKeys, this`otherKeys, this`tick, this`trace
      ensures Valid() && Scripted(trace) && |trace| <= 4 && toolKeys <= old(toolKeys)
      ensures r.None? <==> AllSucceed(weather, old(tick), 3)
      ensures r.None? ==> |trace| == 4 && Passed(trace[3]) && tick == old(tick) + 3
      ensures r.None? ==> toolKeys == Surviving(old(toolKeys), weather, old(tick), 3)
      ensures r.Some? ==> r.value in {Refused, Crashed}
    {
      for i := 0 to 3
        invariant Valid() && Scripted(trace) && |trace| == 1 + i && Passed(trace[i]) && toolKeys <= old(toolKeys)
        invariant tick == old(tick) + i && toolKeys == Surviving(old(toolKeys), weather, old(tick), i)
        invariant AllSucceed(weather, old(tick), i)
      {
        r := ValidateOne(weather, i);
        if r.Some? { return; }
      }
      r := None;
    }

    method ValidateOne(weather: nat -> Event, i: nat) returns (r: Option<Outcome>)
      requires Valid() && Scripted(trace) && i < 3 && |trace| == 1 + i && Passed(trace[i])
      modifies this`toolKeys, this`otherKeys, this`tick, this`trace
      ensures Valid() && Scripted(trace) && |trace| == 2 + i && tick == old(tick) + 1
      ensures toolKeys == old(toolKeys) - weather(old(tick)).removed
      ensures r.None? <==> weather(old(tick)).fault == Succeeds
      ensures r.None? ==> Passed(trace[1 + i])
      ensures r.Some? ==> r.value in {Refused, Crashed}
    {
      var valid := weather(tick).fault == Succeeds;
      ExtendTrace(trace, ValidateTemplate(STACKS[i], valid));
      var status, answer := Ask(weather, ValidateTemplate(STACKS[i], valid));
      r := if status == Died then Some(Crashed) else if !valid then Some(Refused) else None;
    }

    /** Deployment, the stack output and the key listing: None means no key was seen, and none of the
        tool's exists unless the listing hid it. */
    method Prepare(weather: nat -> Event) returns (r: Option<Outcome>)
      requires Valid() && Scripted(trace) && |trace| == 4 && Passed(trace[3])
      modifies this`toolKeys, this`otherKeys, this`tick, this`trace, this`misled
      ensures Valid() && Scripted(trace) && |trace| <= 9 && toolKeys <= old(toolKeys)
      ensures misled == (old(misled) || Hid(trace))
      ensures r.None? <==> PreparesAt(old(toolKeys), weather, old(tick))
      ensures r.None? ==> (misled || toolKeys == {}) && tick == old(tick) + 5 && |trace| == 9 && Passed(trace[8])
      ensures r.Some? ==> r.value in {Refused, Crashed}
    {
      ghost var keys, t := toolKeys, tick;
      r := DeployAll(weather);
      if r.Some? { return; }
      ExtendTrace(trace, DescribeOperator);
      var status, answer := Ask(weather, DescribeOperator);
      if status == Died { return Some(Crashed); }
      if status == Failed || answer != Usable { return Some(Refused); }
      assert toolKeys == Surviving(keys, weather, t, 4);
      var seenEmpty;
      status, seenEmpty := AskKeys(weather);
      if status == Died { return Some(Crashed); }
      if !seenEmpty { return Some(Refused); }
      r := None;
    }

    /** The three stacks, in dependency order. */
    method DeployAll(weather: nat -> Event) returns (r: Option<Outcome>)
      requires Valid() && Scripted(trace) && |trace| == 4 && Passed(trace[3])
      modifies this`toolKeys, this`otherKeys, this`tick, this`trace
      ensures Valid() && Scripted(trace) && |trace| <= 7 && toolKeys <= old(toolKeys)
      ensures r.None? <==> AllSucceed(weather, old(tick), 3)
      ensures r.None? ==> tick == old(tick) + 3 && |trace| == 7
      ensures r.None? ==> toolKeys == Surviving(old(toolKeys), weather, old(tick), 3)
      ensures r.Some? ==> r.value in {Refused, Crashed}
    {
      for i := 0 to 3
        invariant Valid() && Scripted(trace) && |trace| == 4 + i && Passed(trace[3 + i]) && toolKeys <= old(toolKeys)
        invariant tick == old(tick) + i && toolKeys == Surviving(old(toolKeys), weather, old(tick), i)
        invariant AllSucceed(weather, old(tick), i)
      {
        r := DeployOne(weather, i);
        if r.Some? { return; }
      }
      r := None;
    }

    method DeployOne(weather: nat -> Event, i: nat) returns (r: Option<Outcome>)
      requires Valid() && Scripted(trace) && i < 3 && |trace| == 4 + i && Passed(trace[3 + i])
      modifies this`toolKeys, this`otherKeys, this`tick, this`trace
      ensures Valid() && Scripted(trace) && |trace| == 5 + i && tick == old(tick) + 1 && Passed(trace[4 + i])
      ensures toolKeys == old(toolKeys) - weather(old(tick)).removed
      ensures r.None? <==> weather(old(tick)).fault == Succeeds
      ensures r.Some? ==> r.value in {Refused, Crashed}
    {
      ExtendTrace(trace, DeployStack(STACKS[i]));
      var status, answer := Ask(weather, DeployStack(STACKS[i]));
      r := if status == Died then Some(Crashed) else if status == Failed then Some(Refused) else None;
    }

    /** `list-access-keys`. A list in the answer is truthful: it shows the keys as they are when the
        call runs. An answer without the list reads as empty. */
    method AskKeys(weather: nat -> Event) returns (status: Status, seenEmpty: bool)
      requires Valid() && Scripted(trace) && |trace| == 8
      modifies this`toolKeys, this`otherKeys, this`tick, this`trace, this`misled
      ensures Valid() && Scripted(trace) && |trace| == 9 && toolKeys <= old(toolKeys)
      ensures misled == (old(misled) || Hid(trace))
      ensures seenEmpty ==> Passed(trace[8]) && (misled || toolKeys == {})
      ensures tick == old(tick) + 1 && Seen(status, old(weather(tick)).fault)
      ensures seenEmpty <==> ListsNothing(old(toolKeys), old(weather(tick)))
    {
      var e := weather(tick);
      var live := toolKeys - e.removed;
      var lacksList := e.fault == Succeeds && e.answer == LacksList;
      seenEmpty := lacksList || (e.fault == Succeeds && e.answer == Usable && live == {} && e.otherKeys == 0);
      ghost var c := ListKeys(seenEmpty, lacksList && live != {});
      ExtendTrace(trace, c);
      var answer;
      status, answer := Ask(weather, c);
      misled := misled || c.hidLiveKey;
    }

    /** `_write_credentials`: reads the file, refuses an existing section, else replaces the file with
        what was read and the new section, over whatever an editor did in between. */
    method Write(write: WriteFault, meanwhile: Option<Option<Section>>, section: Section) returns (status: Status)
      modifies this`profile
      ensures old(profile).Some? ==> profile == old(profile) && status != Answered
      ensures status == Answered ==> profile == Some(section)
      ensures status == Failed ==> Untouched(old(profile), profile, meanwhile)
      ensures Untouched(old(profile), profile, meanwhile) || (old(profile).None? && profile == Some(section))
      ensures old(profile).None? ==>
        (status == Answered <==> write == Written) && (status == Failed <==> write == WriteFails)
    {
      if write == CrashesBeforeRead { return Died; }
      if profile.Some? { return Failed; }
      if meanwhile.Some? {
        profile := meanwhile.value;
      }
      if write == CrashesBeforeWrite { return Died; }
      if write == WriteFails { return Failed; }
      profile := Some(section);
      status := if write == CrashesAfterWrite then Died else Answered;
    }

    /** Creating the key and persisting it, with cleanup when either goes wrong. */
    method Provide(weather: nat -> Event, local: Local, secret: nat) returns (r: Outcome)
      requires Valid() && (misled || toolKeys == {})
      requires Scripted(trace) && |trace| == 9 && Passed(trace[8])
      modifies this`toolKeys, this`otherKeys, this`tick, this`trace, this`nextKey, this`profile
      ensures Valid() && Scripted(trace) && Hid(trace) == old(Hid(trace))
      ensures old(profile).Some? ==> profile == old(profile)
      ensures r.Created? ==> r.key == old(nextKey) && r.key in toolKeys && (!misled ==> toolKeys == {r.key})
      ensures r.Created? ==> profile == Some(Section(r.key, secret)) && old(profile).None?
      ensures r.KeyRemoved? ==> toolKeys <= old(toolKeys)
      ensures !r.Created? && !r.Crashed? ==> Untouched(old(profile), profile, local.meanwhile)
      ensures r in {KeyRemoved, CleanupUnconfirmed, UnusableKey, Refused, Crashed} || r.Created?
      ensures old(profile).None? ==>
        Provides(weather(old(tick)), local.write, weather(old(tick) + 1), old(nextKey), r)
      ensures old(profile).None? ==>
        trace == old(trace) + [CreateKey] + Cleanup(weather(old(tick)), local.write, old(nextKey))
    {
      ExtendTrace(trace, CreateKey);
      ExtendTrace(trace + [CreateKey], DeleteKey(nextKey));
      var status, answer, key := Create(weather);
      if status == Died { return Crashed; }
      if status == Failed { return Refused; }
      if answer in {Mismatching, Unreadable, LacksKeyId, LacksList} { return UnusableKey; }
      if answer == LacksSecret {
        var removed := Delete(weather, key);
        if removed == Died { return Crashed; }
        return if removed == Failed then CleanupUnconfirmed else UnusableKey;
      }
      var written := Write(local.write, local.meanwhile, Section(key, secret));
      if written == Died { return Crashed; }
      if written == Answered { return Created(key); }
      var deleted := Delete(weather, key);
      if deleted == Died { return Crashed; }
      r := if deleted == Failed then CleanupUnconfirmed else KeyRemoved;
    }

    /** `bootstrap_account`, one run under the lock. Whatever the weather, and wherever the process
        dies, the tool holds at most one live key unless a listing without its list hid one, and
        overwrites no section that was there when it read the file; what it reports is true; and
        every mutating call followed the checks meant to precede it. */
    method Bootstrap(local: Local, weather: nat -> Event, secret: nat) returns (r: Outcome)
      requires Valid()
      modifies this
      ensures Valid() && Disciplined(trace)
      ensures misled == (old(misled) || Hid(trace))
      ensures old(profile).Some? ==> profile == old(profile) && toolKeys <= old(toolKeys)
      ensures r.Created? ==> r.key == old(nextKey) && r.key in toolKeys && (!misled ==> toolKeys == {r.key})
      ensures r.Created? ==> profile == Some(Section(r.key, secret)) && old(profile).None?
      ensures r.KeyRemoved? ==> toolKeys <= old(toolKeys)
      ensures r.AlreadyConfigured? ==> old(profile).Some?
      ensures !r.Created? && !r.Crashed? ==> Untouched(old(profile), profile, local.meanwhile)
      ensures !local.apply || !local.accountGiven || !local.inputsValid || !local.locked ==> r == Refused && trace == []
      ensures r.AlreadyConfigured? <==>
        && local.accountGiven && local.apply && local.inputsValid && local.locked && local.fileReadable
        && old(profile).Some? && weather(old(tick)).fault == Succeeds && weather(old(tick)).answer == Usable
      ensures Proceeds(local, old(profile), old(toolKeys), weather, old(tick)) ==>
        && Provides(weather(old(tick) + 9), local.write, weather(old(tick) + 10), old(nextKey), r)
        && Scripted(trace) && |trace| >= 10 && trace[10..] == Cleanup(weather(old(tick) + 9), local.write, old(nextKey))
      ensures !Proceeds(local, old(profile), old(toolKeys), weather, old(tick)) ==>
        r in {Refused, Crashed, AlreadyConfigured}
      ensures (&& local.accountGiven && local.apply && local.inputsValid && local.locked && local.fileReadable
               && local.templatesPresent && local.write == Written && FairWeather(weather, old(tick))
               && old(profile).None? && old(toolKeys) == {}) ==>
        r == Created(old(nextKey)) && profile == Some(Section(old(nextKey), secret)) && old(nextKey) in toolKeys
    {
      if FairWeather(weather, tick) {
        FairWeatherDeploys(weather, tick);
      }
      trace := [];
      if !local.accountGiven || !local.apply || !local.inputsValid || !local.locked || !local.fileReadable {
        return Refused;
      }
      if profile.Some? {
        var status, answer := Ask(weather, OperatorIdentity);
        if status == Died { return Crashed; }
        return if status == Failed || answer != Usable then Refused else AlreadyConfigured;
      }
      if !local.templatesPresent {
        return Refused;
      }
      r := Deploy(local, weather, secret);
    }

    /** A run without a section: the checks, the deployment and the key. */
    method Deploy(local: Local, weather: nat -> Event, secret: nat) returns (r: Outcome)
      requires Valid() && trace == [] && profile.None?
      modifies this
      ensures Valid() && Scripted(trace) && Disciplined(trace)
      ensures misled == (old(misled) || Hid(trace))
      ensures r.Created? ==> r.key == old(nextKey) && r.key in toolKeys && (!misled ==> toolKeys == {r.key})
      ensures r.Created? ==> profile == Some(Section(r.key, secret))
      ensures r.KeyRemoved? ==> toolKeys <= old(toolKeys)
      ensures !r.Created? && !r.Crashed? ==> Untouched(old(profile), profile, local.meanwhile)
      ensures DeploysAt(old(toolKeys), weather, old(tick)) ==>
        && Provides(weather(old(tick) + 9), local.write, weather(old(tick) + 10), old(nextKey), r)
        && |trace| >= 10 && trace[10..] == Cleanup(weather(old(tick) + 9), local.write, old(nextKey))
      ensures !DeploysAt(old(toolKeys), weather, old(tick)) ==> r in {Refused, Crashed}
    {
      r := Refused;
      var stopped := Clear(weather);
      if stopped.Some? {
        r := stopped.value;
      } else {
        stopped := Prepare(weather);
        if stopped.Some? {
          r := stopped.value;
        } else {
          r := Provide(weather, local, secret);
        }
      }
      ScriptedIsDisciplined(trace);
    }

    /** Any sequence of runs: between runs others may remove keys, hold keys of their own, and add
        or remove the profile section. At most one tool key lives unless some listing hid a live one.
        If nobody edits the section, the first one stays for good: it is the one of the only run that
        created a key and reported so. */
    method Campaign(runs: seq<Local>, weather: nat -> Event, edits: nat -> Option<Section>, edited: nat -> bool)
      returns (outcomes: seq<Outcome>)
      requires Valid()
      modifies this
      ensures Valid() && (!misled ==> |toolKeys| <= 1) && |outcomes| == |runs|
      ensures (forall i :: 0 <= i < |runs| ==> !edited(i) && runs[i].meanwhile.None?) ==>
        FirstSectionStays(old(profile), profile, outcomes)
    {
      outcomes := [];
      for i := 0 to |runs|
        invariant Valid() && |outcomes| == i
        invariant (forall j :: 0 <= j < |runs| ==> !edited(j) && runs[j].meanwhile.None?) ==>
          FirstSectionStays(old(profile), profile, outcomes)
      {
        if edited(i) {
          profile := edits(i);
        }
        Interfere(weather(tick));
        ghost var before := profile;
        var r := Bootstrap(runs[i], weather, i);
        if forall j :: 0 <= j < |runs| ==> !edited(j) && runs[j].meanwhile.None? {
          ExtendOutcomes(old(profile), before, profile, outcomes, r);
        }
        outcomes := outcomes + [r];
      }
    }
  }

  /** An existing section stays, and each run that reports a key left the section that is there. */
  ghost predicate FirstSectionStays(was: Option<Section>, now: Option<Section>, outcomes: seq<Outcome>) {
    && (was.Some? ==> now == was)
    && (forall i :: 0 <= i < |outcomes| && outcomes[i].Created? ==>
      was.None? && now == Some(Section(outcomes[i].key, i)))
    && (forall i, j :: 0 <= i < j < |outcomes| && outcomes[i].Created? ==> !outcomes[j].Created?)
  }

  lemma ExtendOutcomes(was: Option<Section>, before: Option<Section>, after: Option<Section>, outcomes: seq<Outcome>,
      r: Outcome)
    requires FirstSectionStays(was, before, outcomes)
    requires before.Some? ==> after == before
    requires r.Created? ==> before.None? && after == Some(Section(r.key, |outcomes|))
    ensures FirstSectionStays(was, after, outcomes + [r])
  {
  }

  lemma SubsetIsSmaller<T>(a: set<T>, b: set<T>)
    requires a <= b
    ensures |a| <= |b|
  {
    if a != {} {
      var x :| x in a;
      SubsetIsSmaller(a - {x}, b - {x});
      assert |a| == |a - {x}| + 1 && |b| == |b - {x}| + 1;
    }
  }
}
