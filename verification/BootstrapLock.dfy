/** Why the bootstrap takes a file lock: any number of processes, interleaved call by call and dying
anywhere, with outsiders touching the keys and the credentials file. With the lock they create at
most one access key and overwrite no section; without it they can do both
(`scripts/bootstrap_otel_account.py`). */
module BootstrapLock {
  import opened Options

  type Process = nat
  type KeyId = nat

  /** The credentials file: section names and what they hold. */
  type File = map<string, KeyId>

  const PROFILE := "otel-demo"

  /** Where a process stands between its remote calls and file accesses. */
  datatype Point =
    | Outside
    | Entered                            // inside, no profile section seen
    | SawNoKeys                          // the key listing read as empty
    | Holds(key: KeyId)                  // a key was created and answered
    | Composed(key: KeyId, snapshot: File) // the file was read and has no profile section
    | CleansUp(key: KeyId)               // the profile was not written

  /** `orphans` counts the key creations that a killed process left running: the command it started
      lives on after the lock is freed, and its key appears later or never. */
  datatype State = State(toolKeys: set<KeyId>, otherKeys: nat, nextKey: KeyId, file: File,
                         lock: Option<Process>, at: map<Process, Point>, orphans: nat)

  /** How a key listing comes back: not at all, as it is, or as an object without the list, which the
      code reads as empty. */
  datatype Listing = Fails | Truthful | LacksMetadata

  datatype Step =
    | Enter(p: Process)
    | List(p: Process, listing: Listing)
    | Create(p: Process, effect: bool, answered: bool)
    | ReadFile(p: Process, ok: bool)
    | Replace(p: Process, ok: bool)
    | Delete(p: Process, effect: bool)
    | Die(p: Process)
    | DieCreating(p: Process)
    | Land
    | Vanish
    | Others(removed: set<KeyId>, otherKeys: nat)
    | Edit(file: File)

  function PointOf(s: State, p: Process): Point {
    if p in s.at then s.at[p] else Outside
  }

  function Move(s: State, p: Process, point: Point): State {
    s.(at := s.at[p := point])
  }

  /** Leaving, by returning or dying, gives up the lock. */
  function Leave(s: State, p: Process): State {
    Move(s, p, Outside).(lock := if s.lock == Some(p) then None else s.lock)
  }

  predicate ReadsAsEmpty(s: State, listing: Listing) {
    listing.LacksMetadata? || (listing.Truthful? && s.toolKeys == {} && s.otherKeys == 0)
  }

  /** A step, or no change when it is not enabled. An answered call took effect. */
  function Next(s: State, locking: bool, step: Step): State {
    match step
    case Enter(p) =>
      if PointOf(s, p) != Outside || (locking && s.lock.Some?) || PROFILE in s.file then s
      else Move(s, p, Entered).(lock := if locking then Some(p) else s.lock)
    case List(p, listing) =>
      if PointOf(s, p) != Entered then s
      else if ReadsAsEmpty(s, listing) then Move(s, p, SawNoKeys)
      else Leave(s, p)
    case Create(p, effect, answered) =>
      if PointOf(s, p) != SawNoKeys then s
      else
        var s' := if effect || answered then s.(toolKeys := s.toolKeys + {s.nextKey}, nextKey := s.nextKey + 1) else s;
        if answered then Move(s', p, Holds(s.nextKey)) else Leave(s', p)
    case ReadFile(p, ok) =>
      if !PointOf(s, p).Holds? then s
      else if ok && PROFILE !in s.file then Move(s, p, Composed(PointOf(s, p).key, s.file))
      else Move(s, p, CleansUp(PointOf(s, p).key))
    case Replace(p, ok) =>
      if !PointOf(s, p).Composed? then s
      else if ok then Leave(s, p).(file := PointOf(s, p).snapshot[PROFILE := PointOf(s, p).key])
      else Move(s, p, CleansUp(PointOf(s, p).key))
    case Delete(p, effect) =>
      if !PointOf(s, p).CleansUp? then s
      else Leave(if effect then s.(toolKeys := s.toolKeys - {PointOf(s, p).key}) else s, p)
    case Die(p) => Leave(s, p)
    case DieCreating(p) =>
      if PointOf(s, p) != SawNoKeys then s else Leave(s, p).(orphans := s.orphans + 1)
    case Land =>
      if s.orphans == 0 then s
      else s.(toolKeys := s.toolKeys + {s.nextKey}, nextKey := s.nextKey + 1, orphans := s.orphans - 1)
    case Vanish => if s.orphans == 0 then s else s.(orphans := s.orphans - 1)
    case Others(removed, otherKeys) => s.(toolKeys := s.toolKeys - removed, otherKeys := otherKeys)
    case Edit(file) => s.(file := file)
  }

  function Run(s: State, locking: bool, steps: seq<Step>): State
    decreases |steps|
  {
    if steps == [] then s else Run(Next(s, locking, steps[0]), locking, steps[1..])
  }

  const START := State({}, 0, 0, map[], None, map[], 0)

  /** Steps that no process takes. */
  predicate Outer(step: Step) {
    step.Others? || step.Edit? || step.Land? || step.Vanish?
  }

  // ------------------------------------------------------------------ one process inside

  /** Only the lock holder is inside, and keys are numbered in order. */
  ghost predicate Exclusive(s: State) {
    && (forall p: Process :: PointOf(s, p) != Outside ==> s.lock == Some(p))
    && (forall k :: k in s.toolKeys ==> k < s.nextKey)
  }

  lemma OthersStay(s: State, locking: bool, step: Step, q: Process)
    requires Outer(step) || q != step.p
    ensures PointOf(Next(s, locking, step), q) == PointOf(s, q)
  {
  }

  lemma StepIsExclusive(s: State, step: Step)
    requires Exclusive(s)
    ensures Exclusive(Next(s, true, step))
  {
    forall q: Process | Outer(step) || q != step.p
      ensures PointOf(Next(s, true, step), q) == PointOf(s, q)
    {
      OthersStay(s, true, step, q);
    }
  }

  // ------------------------------------------------------------------ keys

  /** The listing about to be read shows no key although a key of the tool lives or is on its way. */
  predicate Misleads(s: State, step: Step) {
    && step.List? && PointOf(s, step.p) == Entered && ReadsAsEmpty(s, step.listing)
    && (s.toolKeys != {} || s.orphans > 0)
  }

  ghost predicate NeverMisled(s: State, locking: bool, steps: seq<Step>)
    decreases |steps|
  {
    steps == [] || (!Misleads(s, steps[0]) && NeverMisled(Next(s, locking, steps[0]), locking, steps[1..]))
  }

  /** At most one tool key, alive or on its way, and what the process inside believes about the keys
      holds. */
  ghost predicate OneKey(s: State) {
    && s.orphans <= 1 && (s.orphans == 1 ==> s.toolKeys == {})
    && (forall p: Process :: PointOf(s, p).SawNoKeys? ==> s.toolKeys == {} && s.orphans == 0)
    && (forall p: Process :: PointOf(s, p).Holds? || PointOf(s, p).Composed? || PointOf(s, p).CleansUp? ==>
          s.toolKeys <= {PointOf(s, p).key} && s.orphans == 0)
    && (forall j, k :: j in s.toolKeys && k in s.toolKeys ==> j == k)
  }

  lemma StepKeepsOneKey(s: State, step: Step)
    requires Exclusive(s) && OneKey(s) && !Misleads(s, step)
    ensures OneKey(Next(s, true, step))
  {
    forall q: Process | Outer(step) || q != step.p
      ensures PointOf(Next(s, true, step), q) == PointOf(s, q)
    {
      OthersStay(s, true, step, q);
    }
  }

  lemma {:induction false} RunKeepsOneKey(s: State, steps: seq<Step>)
    requires Exclusive(s)
    ensures Exclusive(Run(s, true, steps))
    ensures OneKey(s) && NeverMisled(s, true, steps) ==> OneKey(Run(s, true, steps))
    decreases |steps|
  {
    if steps == [] {
    } else {
      StepIsExclusive(s, steps[0]);
      if OneKey(s) && !Misleads(s, steps[0]) {
        StepKeepsOneKey(s, steps[0]);
      }
      RunKeepsOneKey(Next(s, true, steps[0]), steps[1..]);
    }
  }

  lemma AtMostOne(s: set<KeyId>)
    requires forall j, k :: j in s && k in s ==> j == k
    ensures |s| <= 1
  {
    if s != {} {
      var x :| x in s;
      assert s == {x};
    }
  }

  /** Any processes, in any interleaving, with any faults and deaths, commands that outlive them, and
      whatever others do to the keys and the file: never two processes inside, and never two live keys
      created by the tool unless some listing showed none while one lived or was on its way. */
  lemma LockedRunsCreateAtMostOneKey(steps: seq<Step>, p: Process, q: Process)
    ensures var end := Run(START, true, steps);
      && (PointOf(end, p) != Outside && PointOf(end, q) != Outside ==> p == q)
      && (NeverMisled(START, true, steps) ==> |end.toolKeys| <= 1)
  {
    RunKeepsOneKey(START, steps);
    if NeverMisled(START, true, steps) {
      AtMostOne(Run(START, true, steps).toolKeys);
    }
  }

  /** The exception is exact: wherever a locked run stands before a listing, what follows (a creation,
      and the key of an orphaned one) can leave two tool keys if and only if that listing shows none
      while one lives or is on its way. */
  lemma SecondKeyIff(s: State, p: Process, listing: Listing)
    requires Exclusive(s) && OneKey(s) && PointOf(s, p) == Entered
    ensures (forall effect, answered :: |AfterCreation(s, p, listing, effect, answered).toolKeys| <= 1)
      <==> !Misleads(s, List(p, listing))
  {
    var step := List(p, listing);
    var s1 := Next(s, true, step);
    StepIsExclusive(s, step);
    if Misleads(s, step) {
      var s2 := Next(s1, true, Create(p, true, true));
      var s3 := AfterCreation(s, p, listing, true, true);
      assert s.nextKey in s3.toolKeys;
      if s.toolKeys != {} {
        var k :| k in s.toolKeys;
        assert k in s3.toolKeys && k != s.nextKey;
        AtLeastTwo(s3.toolKeys, k, s.nextKey);
      } else {
        assert s.nextKey + 1 in s3.toolKeys;
        AtLeastTwo(s3.toolKeys, s.nextKey, s.nextKey + 1);
      }
    } else {
      StepKeepsOneKey(s, step);
      forall effect, answered
        ensures |AfterCreation(s, p, listing, effect, answered).toolKeys| <= 1
      {
        var create := Create(p, effect, answered);
        StepKeepsOneKey(s1, create);
        StepIsExclusive(s1, create);
        StepKeepsOneKey(Next(s1, true, create), Land);
        AtMostOne(AfterCreation(s, p, listing, effect, answered).toolKeys);
      }
    }
  }

  /** A listing, the creation after it, and then the key of an orphaned creation, if there is one. */
  function AfterCreation(s: State, p: Process, listing: Listing, effect: bool, answered: bool): State {
    Next(Next(Next(s, true, List(p, listing)), true, Create(p, effect, answered)), true, Land)
  }

  lemma AtLeastTwo(s: set<KeyId>, j: KeyId, k: KeyId)
    requires j in s && k in s && j != k
    ensures |s| >= 2
  {
    assert s == {j} + (s - {j});
    assert k in s - {j};
  }

  // ------------------------------------------------------------------ the credentials file

  /** Every section of `before` is in `after` as it was. */
  predicate SectionsKept(before: File, after: File) {
    forall name :: name in before ==> name in after && after[name] == before[name]
  }

  /** An outside edit between a process's read of the file and its replacement. */
  ghost predicate EditsInWindow(s: State, step: Step) {
    step.Edit? && exists p: Process :: PointOf(s, p).Composed?
  }

  ghost predicate NoEditInWindow(s: State, steps: seq<Step>)
    decreases |steps|
  {
    steps == [] || (!EditsInWindow(s, steps[0]) && NoEditInWindow(Next(s, true, steps[0]), steps[1..]))
  }

  /** What a process read is still what the file holds. */
  ghost predicate SnapshotsCurrent(s: State) {
    forall p: Process :: PointOf(s, p).Composed? ==> PointOf(s, p).snapshot == s.file && PROFILE !in s.file
  }

  lemma StepKeepsSections(s: State, step: Step)
    requires Exclusive(s) && SnapshotsCurrent(s) && !EditsInWindow(s, step)
    ensures SnapshotsCurrent(Next(s, true, step))
    ensures !step.Edit? ==> SectionsKept(s.file, Next(s, true, step).file)
  {
    var s' := Next(s, true, step);
    forall q: Process | Outer(step) || q != step.p
      ensures PointOf(s', q) == PointOf(s, q)
    {
      OthersStay(s, true, step, q);
    }
  }

  /** With the lock and no outside edit inside a window, no step of the tool ever drops or changes a
      section, its own profile or another, however the processes interleave. */
  lemma {:induction false} LockedRunsKeepSections(s: State, steps: seq<Step>, i: nat)
    requires Exclusive(s) && SnapshotsCurrent(s) && NoEditInWindow(s, steps) && i < |steps| && !steps[i].Edit?
    ensures SectionsKept(Run(s, true, steps[..i]).file, Run(s, true, steps[..i + 1]).file)
    decreases |steps|
  {
    StepKeepsSections(s, steps[0]);
    StepIsExclusive(s, steps[0]);
    var s1 := Next(s, true, steps[0]);
    if i == 0 {
      assert steps[..1] == [steps[0]] && steps[..0] == [];
      assert Run(s, true, [steps[0]]) == Run(s1, true, []);
    } else {
      LockedRunsKeepSections(s1, steps[1..], i - 1);
      assert steps[..i][1..] == steps[1..][..i - 1] && steps[..i + 1][1..] == steps[1..][..i];
    }
  }

  /** The condition is exact. The replacement leaves the edited file with the profile section put in
      if and only if the edit left every other section exactly as the process had read it: none
      added, none changed, none removed. It loses a section of the edited file if and only if that is
      another profile section, or one the process had not read just so. */
  lemma EditInWindowSurvivesIff(s: State, locking: bool, p: Process, file: File)
    requires PointOf(s, p).Composed?
    ensures var end := Next(Next(s, locking, Edit(file)), locking, Replace(p, true)).file;
      var read := PointOf(s, p).snapshot;
      && (end == file[PROFILE := PointOf(s, p).key] <==> file - {PROFILE} == read - {PROFILE})
      && (SectionsKept(file, end) <==>
            (PROFILE in file ==> file[PROFILE] == PointOf(s, p).key) && SectionsKept(file - {PROFILE}, read))
  {
    var end := Next(Next(s, locking, Edit(file)), locking, Replace(p, true)).file;
    var read, key := PointOf(s, p).snapshot, PointOf(s, p).key;
    assert end == read[PROFILE := key];
    assert end - {PROFILE} == read - {PROFILE};
    assert file[PROFILE := key] - {PROFILE} == file - {PROFILE};
    if file - {PROFILE} == read - {PROFILE} {
      PutTogether(file, read, key);
    }
    if SectionsKept(file, end) {
      forall name | name in file - {PROFILE}
        ensures name in read && read[name] == file[name]
      {
        assert name in end && end[name] == file[name];
      }
    }
  }

  lemma PutTogether(f: File, g: File, key: KeyId)
    requires f - {PROFILE} == g - {PROFILE}
    ensures f[PROFILE := key] == g[PROFILE := key]
  {
    var f1, g1 := f[PROFILE := key], g[PROFILE := key];
    forall name | name in f1
      ensures name in g1 && f1[name] == g1[name]
    {
      assert name != PROFILE ==> name in f - {PROFILE} && (f - {PROFILE})[name] == (g - {PROFILE})[name];
    }
    forall name | name in g1
      ensures name in f1
    {
      assert name != PROFILE ==> name in g - {PROFILE};
    }
  }

  // ------------------------------------------------------------------ one process alone

  /** Entering, listing, creating and reading, with nothing going wrong. */
  function UpToReplacing(s: State, p: Process): State {
    var listed := Next(Next(s, true, Enter(p)), true, List(p, Truthful));
    Next(Next(listed, true, Create(p, true, true)), true, ReadFile(p, true))
  }

  /** Where no one is inside, no profile is written and no key lives, a process that nothing disturbs
      configures the profile with the one new key; if its write fails and the deletion takes effect, no
      key is left and the file is as before. Either way the lock is free again. */
  lemma UndisturbedRunConfigures(s: State, p: Process)
    requires Exclusive(s) && s.lock.None? && "otel-demo" !in s.file && s.toolKeys == {} && s.otherKeys == 0
    ensures var end := Next(UpToReplacing(s, p), true, Replace(p, true));
      && end.file == s.file["otel-demo" := s.nextKey] && end.toolKeys == {s.nextKey}
      && end.lock.None? && PointOf(end, p) == Outside
    ensures var end := Next(Next(UpToReplacing(s, p), true, Replace(p, false)), true, Delete(p, true));
      && end.file == s.file && end.toolKeys == {} && end.lock.None? && PointOf(end, p) == Outside
  {
    assert PointOf(s, p) == Outside;
    var entered := Next(s, true, Enter(p));
    var listed := Next(entered, true, List(p, Truthful));
    assert PointOf(listed, p) == SawNoKeys && listed.lock == Some(p);
    var created := Next(listed, true, Create(p, true, true));
    assert PointOf(created, p) == Holds(s.nextKey) && created.toolKeys == {s.nextKey};
    var read := Next(created, true, ReadFile(p, true));
    assert PointOf(read, p) == Composed(s.nextKey, s.file) && read.lock == Some(p);
    var failed := Next(read, true, Replace(p, false));
    assert PointOf(failed, p) == CleansUp(s.nextKey) && failed.toolKeys == {s.nextKey};
  }

  // ------------------------------------------------------------------ without the lock

  lemma {:induction false} RunThrough(s: State, locking: bool, steps: seq<Step>, states: seq<State>)
    requires |states| == |steps| + 1 && states[0] == s
    requires forall i :: 0 <= i < |steps| ==> states[i + 1] == Next(states[i], locking, steps[i])
    ensures Run(s, locking, steps) == states[|steps|]
    decreases |steps|
  {
    if steps == [] {
    } else {
      RunThrough(states[1], locking, steps[1..], states[1..]);
    }
  }

  /** Any two processes, both listing before either creates. */
  function Race(p: Process, q: Process): seq<Step> {
    [Enter(p), Enter(q), List(p, Truthful), List(q, Truthful), Create(p, true, true), Create(q, true, true)]
  }

  lemma WithoutTheLockTwoKeysAppear(p: Process, q: Process)
    requires p != q
    ensures Run(START, false, Race(p, q)).toolKeys == {0, 1}
    ensures PointOf(Run(START, false, Race(p, q)), p) == Holds(0)
    ensures PointOf(Run(START, false, Race(p, q)), q) == Holds(1)
    ensures Run(START, false, Race(p, q)).file == map[]
  {
    var steps := Race(p, q);
    var s1 := Next(START, false, steps[0]);
    var s2 := Next(s1, false, steps[1]);
    var s3 := Next(s2, false, steps[2]);
    var s4 := Next(s3, false, steps[3]);
    var s5 := Next(s4, false, steps[4]);
    var s6 := Next(s5, false, steps[5]);
    assert PointOf(s2, p) == Entered && PointOf(s3, q) == Entered;
    assert PointOf(s4, p) == SawNoKeys && PointOf(s5, q) == SawNoKeys;
    RunThrough(START, false, steps, [START, s1, s2, s3, s4, s5, s6]);
  }

  /** Going on from there, both read the file before either replaces it, and the section one of them
      wrote is overwritten by the other. */
  lemma WithoutTheLockASectionIsOverwritten(s: State, p: Process, q: Process)
    requires p != q && PROFILE !in s.file && PointOf(s, p).Holds? && PointOf(s, q).Holds?
    requires PointOf(s, p).key != PointOf(s, q).key
    ensures var s1 := Run(s, false, [ReadFile(p, true), ReadFile(q, true), Replace(q, true)]);
      && s1.file == s.file[PROFILE := PointOf(s, q).key]
      && !SectionsKept(s1.file, Next(s1, false, Replace(p, true)).file)
  {
    var steps := [ReadFile(p, true), ReadFile(q, true), Replace(q, true)];
    var s1 := Next(s, false, steps[0]);
    var s2 := Next(s1, false, steps[1]);
    var s3 := Next(s2, false, steps[2]);
    assert PointOf(s1, q) == PointOf(s, q);
    assert PointOf(s2, p) == PointOf(s1, p) == Composed(PointOf(s, p).key, s.file);
    assert PointOf(s3, p) == PointOf(s2, p);
    RunThrough(s, false, steps, [s, s1, s2, s3]);
    var s4 := Next(s3, false, Replace(p, true));
    assert s4.file[PROFILE] == PointOf(s, p).key && s3.file[PROFILE] == PointOf(s, q).key;
  }
}
