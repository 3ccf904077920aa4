/** The bounded fault controller: it renames the audit table away, waits for a browser, and puts the
table back in `finally` (`scripts/control_issue25_query_fault.py`). */
module FaultController {
  import opened Options

  /** Which of the two names exist. */
  datatype Tables = Tables(original: bool, fault: bool)

  const INTACT := Tables(true, false)
  const RENAMED := Tables(false, true)

  /** How a step goes: well, raising before it takes effect, raising after, or raising and taking
      effect only once the run is over. A timeout, a lost acknowledgement and a termination signal are
      all of the raising kinds. */
  datatype Step = Fine | RaisesBefore | RaisesAfter | RaisesLate

  predicate Immediate(step: Step) {
    step.Fine? || step.RaisesAfter?
  }

  /** Everything that can go differently in one run. `meanwhile` is what others leave the names at
      before the cleanup looks. */
  datatype Script = Script(
    ready: Step, connect: Step, look: Step, rename: Step, mark: Step, done: Step, browserFailed: bool,
    meanwhile: Option<Tables>,
    reconnect: Step, lookAgain: Step, restore: Step, verify: Step, unmark: Step)

  /** The state checks before the rename all went well and found the table in place. */
  predicate RenameAttempted(t: Tables, s: Script) {
    t == INTACT && s.ready.Fine? && s.connect.Fine? && s.look.Fine?
  }

  /** What the cleanup finds after an attempted rename. */
  function FoundByCleanup(s: Script): Tables {
    if s.meanwhile.Some? then s.meanwhile.value else if Immediate(s.rename) then RENAMED else INTACT
  }

  /** The cleanup gets as far as sending the restoring statement, if there is something to restore. */
  predicate CleanupReached(s: Script) {
    s.reconnect.Fine? && s.lookAgain.Fine?
  }

  /** The restoring statement is sent and takes effect, if only later. */
  predicate CleanupActs(s: Script) {
    CleanupReached(s) && !s.restore.RaisesBefore?
  }

  /** The names when the run ends. */
  function NamesAtEnd(t: Tables, s: Script): Tables {
    if !RenameAttempted(t, s) then t
    else if FoundByCleanup(s) == RENAMED && CleanupReached(s) && Immediate(s.restore) then INTACT
    else FoundByCleanup(s)
  }

  /** Statements still on their way land in the order they were sent; a rename of a name that is gone
      does nothing. */
  function Landed(t: Tables, s: Script): Tables {
    var renamed := if s.rename.RaisesLate? && t == INTACT then RENAMED else t;
    if FoundByCleanup(s) == RENAMED && CleanupReached(s) && s.restore.RaisesLate? && renamed == RENAMED
    then INTACT else renamed
  }

  /** The names once everything the run sent has landed. */
  function NamesAfter(t: Tables, s: Script): Tables {
    if RenameAttempted(t, s) then Landed(NamesAtEnd(t, s), s) else t
  }

  /** Nothing at all goes wrong. */
  predicate Undisturbed(t: Tables, s: Script) {
    && RenameAttempted(t, s) && s.rename.Fine? && s.mark.Fine? && s.done.Fine? && !s.browserFailed
    && FoundByCleanup(s) in {INTACT, RENAMED}
    && s.reconnect.Fine? && s.lookAgain.Fine? && (FoundByCleanup(s) == RENAMED ==> s.restore.Fine?)
    && s.verify.Fine? && s.unmark.Fine?
  }

  const FAIR := Script(Fine, Fine, Fine, Fine, Fine, Fine, false, None, Fine, Fine, Fine, Fine, Fine)

  class Database {
    var tables: Tables
    var active: bool

    constructor (tables: Tables)
      ensures this.tables == tables && !active
    {
      this.tables, active := tables, false;
    }

    method Rename(from: Tables, to: Tables, step: Step) returns (raised: bool)
      requires tables == from
      modifies this`tables
      ensures raised == !step.Fine? && tables == (if Immediate(step) then to else from)
    {
      if Immediate(step) {
        tables := to;
      }
      raised := !step.Fine?;
    }

    /** The body of the `try`; `shown` is what the browser finds while it is awaited. */
    method Disturb(s: Script) returns (raised: bool, attempted: bool, ghost shown: Option<Tables>)
      modifies this
      ensures attempted == RenameAttempted(old(tables), s)
      ensures tables == if !attempted then old(tables) else if Immediate(s.rename) then RENAMED else INTACT
      ensures raised == !(attempted && s.rename.Fine? && s.mark.Fine? && s.done.Fine? && !s.browserFailed)
      ensures !attempted ==> active == old(active)
      ensures shown ==
        if old(tables) == Tables(true, false) && s.ready == s.connect == s.look == s.rename == Fine
        then Some(Tables(false, true)) else None
    {
      raised, attempted, shown := true, false, None;
      if !s.ready.Fine? || !s.connect.Fine? || !s.look.Fine? || tables != INTACT {
        return;
      }
      attempted := true;
      raised := Rename(INTACT, RENAMED, s.rename);
      if raised {
        return;
      }
      shown := Some(tables);
      active := Immediate(s.mark);
      raised := !s.mark.Fine? || !s.done.Fine? || s.browserFailed;
    }

    /** The `finally` after an attempted rename, without the marker. */
    method PutBack(s: Script) returns (raised: bool)
      modifies this`tables
      ensures tables ==
        if old(tables) == RENAMED && CleanupReached(s) && Immediate(s.restore) then INTACT else old(tables)
      ensures !raised ==> tables == INTACT
      ensures raised == !(s.reconnect.Fine? && s.lookAgain.Fine? && s.verify.Fine?
        && (old(tables) == INTACT || (old(tables) == RENAMED && s.restore.Fine?)))
    {
      if !s.reconnect.Fine? || !s.lookAgain.Fine? {
        return true;
      }
      if tables == RENAMED {
        raised := Rename(RENAMED, INTACT, s.restore);
        if raised {
          return;
        }
      } else if tables != INTACT {
        return true;
      }
      raised := !s.verify.Fine? || tables != INTACT;
    }

    /** `main`: it returns normally only with the original name alone present and no marker left,
        with nothing on its way that could change that, and in fact exactly when nothing went wrong;
        the browser then did find the table renamed. */
    method Control(s: Script) returns (raised: bool, ghost shown: Option<Tables>)
      modifies this
      ensures tables == NamesAtEnd(old(tables), s)
      ensures !raised <==> Undisturbed(old(tables), s)
      ensures !raised ==> tables == INTACT && NamesAfter(old(tables), s) == INTACT && !active
      ensures !raised ==> old(tables) == Tables(true, false) == tables && shown == Some(Tables(false, true))
      ensures old(tables) == Tables(true, false) && s == FAIR ==> !raised
    {
      active := false;
      var attempted;
      raised, attempted, shown := Disturb(s);
      if attempted {
        if s.meanwhile.Some? {
          tables := s.meanwhile.value;
        }
        var failed := PutBack(s);
        if failed {
          return true, shown;
        }
      }
      if Immediate(s.unmark) {
        active := false;
      }
      raised := raised || !s.unmark.Fine?;
    }
  }

  // ------------------------------------------------------------------ what any faults leave

  function NamesAfterRuns(t: Tables, scripts: seq<Script>): Tables
    decreases |scripts|
  {
    if scripts == [] then t else NamesAfterRuns(NamesAfter(t, scripts[0]), scripts[1..])
  }

  /** A table left under the fault name stays there: no later run repairs it or returns normally. */
  lemma {:induction false} AbandonedTableIsNeverRepaired(scripts: seq<Script>)
    ensures NamesAfterRuns(RENAMED, scripts) == RENAMED
    ensures forall s :: s in scripts ==> !Undisturbed(RENAMED, s)
  {
    if scripts == [] {
    } else {
      AbandonedTableIsNeverRepaired(scripts[1..]);
    }
  }

  /** After any number of runs the original is in place exactly when every rename that takes effect
      does so before the cleanup looks, and that cleanup acts. */
  lemma {:induction false} RunsRestoreIff(scripts: seq<Script>)
    requires forall s :: s in scripts ==> s.meanwhile.None?
    ensures NamesAfterRuns(INTACT, scripts) == INTACT <==>
      forall s :: s in scripts && RenameAttempted(INTACT, s) ==>
        s.rename.RaisesBefore? || (Immediate(s.rename) && CleanupActs(s))
  {
    if scripts == [] {
    } else {
      if NamesAfter(INTACT, scripts[0]) == INTACT {
        RunsRestoreIff(scripts[1..]);
      } else {
        AbandonedTableIsNeverRepaired(scripts[1..]);
        assert scripts[0] in scripts;
      }
    }
  }
}
