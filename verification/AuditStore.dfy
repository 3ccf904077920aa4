/** The audit database as the migrations change it in place: `run_migrations_online` with its
listener, the downgrade scripts and the append-only insert. */
module AuditStore {
  import opened AuditOperations
  import opened RevisionGraph
  import opened AuditMigration

  class Store {
    var applied: set<RevisionId>
    var rows: seq<Operation>
    var check: Check
    var validated: bool

    constructor ()
      ensures Value() == Empty()
    {
      applied, rows, check, validated := {}, [], [], true;
    }

    function Value(): State
      reads this
    {
      State(applied, rows, check, validated)
    }

    /** What the transaction left: its outcome if it committed, else the state before it. */
    static predicate Leaves(before: State, outcome: Outcome, after: State, committed: bool) {
      && committed == outcome.Committed?
      && after == if committed then outcome.state else before
    }

    method Append(op: Operation) returns (committed: bool)
      modifies this`rows
      ensures Leaves(old(Value()), Insert(old(Value()), op), Value(), committed)
      ensures committed <==> op in check
      ensures rows == if committed then old(rows) + [op] else old(rows)
    {
      committed := op in check;
      if committed {
        rows := rows + [op];
      }
    }

    method Restore(saved: State)
      modifies this
      ensures Value() == saved
    {
      applied, rows, check, validated := saved.applied, saved.rows, saved.check, saved.validated;
    }

    /** `ADD CONSTRAINT`: scans the rows unless the listener marked it NOT VALID. */
    method AddCheck(created: Check, deferred: set<Check>) returns (ok: bool)
      modifies this`check, this`validated
      ensures ok <==> created in deferred || Admits(created, rows)
      ensures ok ==> check == created && validated == (created !in deferred)
      ensures !ok ==> check == old(check) && validated == old(validated)
    {
      if created !in deferred {
        var i := 0;
        while i < |rows|
          invariant 0 <= i <= |rows|
          invariant Admits(created, rows[..i])
        {
          if rows[i] !in created {
            return false;
          }
          i := i + 1;
        }
        assert rows[..i] == rows;
      }
      check, validated := created, created !in deferred;
      ok := true;
    }

    method RunRevisions(h: AuditHistory, deferred: set<Check>, plan: seq<RevisionId>) returns (ok: bool)
      modifies this
      ensures ok <==> RunUp(h, deferred, old(Value()), plan).Committed?
      ensures ok ==> Value() == RunUp(h, deferred, old(Value()), plan).state
    {
      var i := 0;
      while i < |plan|
        invariant 0 <= i <= |plan|
        invariant RunUp(h, deferred, old(Value()), plan) == RunUp(h, deferred, Value(), plan[i..])
      {
        var r := plan[i];
        assert plan[i..][0] == r && plan[i..][1..] == plan[i + 1..];
        if r >= |h| {
          return false;
        }
        match h[r].edit {
          case Keeps =>
          case CreatesTable(created) =>
            rows, check, validated := [], created, true;
          case Replaces(created, _, _) =>
            var added := AddCheck(created, deferred);
            if !added {
              return false;
            }
        }
        applied := applied + {r};
        i := i + 1;
      }
      ok := true;
    }

    /** `run_migrations_online`: one transaction, routed through the guard when it applies. */
    method MigrateUp(h: AuditHistory, cfg: Integration, target: RevisionId, plan: seq<RevisionId>)
      returns (committed: bool)
      requires WellOrdered(h) && target < |h| && Configured(h, cfg)
      modifies this
      ensures Leaves(old(Value()), Upgrade(h, cfg, old(Value()), target, plan), Value(), committed)
      ensures !committed ==> Value() == old(Value())
      ensures committed ==> forall r :: r in applied <==> r in old(applied) || r in plan
      ensures committed ==> (forall i :: 0 <= i < |plan| ==> plan[i] < |h|) && EndsOn(h, old(check), plan, check)
    {
      var saved := Value();
      match IntegratedUpgrade(h, cfg, Heads(h, applied), target) {
        case Plain =>
          committed := RunRevisions(h, {}, plan);
          if committed {
            RunUpAppliesThePlan(h, {}, saved, plan);
          }
        case Guarded(deferred) =>
          committed := RunRevisions(h, deferred, plan);
          if committed {
            RunUpAppliesThePlan(h, deferred, saved, plan);
          }
          if committed && (Heads(h, applied) != {target} || !validated) {
            committed := false;
          }
      }
      if !committed {
        Restore(saved);
      }
    }

    /** The downgrade scripts of `undos`, in one transaction. */
    method MigrateDown(h: AuditHistory, undos: seq<Undo>) returns (committed: bool)
      modifies this
      ensures Leaves(old(Value()), RunDown(h, old(Value()), undos), Value(), committed)
      ensures !committed ==> Value() == old(Value())
      ensures committed <==> forall i :: 0 <= i < |undos| ==> Undoes(h, RowsFound(h, old(rows), undos, i), undos[i])
      ensures committed ==> forall r ::
        r in applied <==> r in old(applied) && forall i :: 0 <= i < |undos| ==> undos[i].revision != r
    {
      var saved := Value();
      RunDownUndoesIff(h, saved, undos);
      committed := true;
      var i := 0;
      while i < |undos| && committed
        invariant 0 <= i <= |undos|
        invariant committed ==> RunDown(h, saved, undos) == RunDown(h, Value(), undos[i..])
        invariant !committed ==> RunDown(h, saved, undos) == RolledBack
      {
        var u := undos[i];
        assert undos[i..][0] == u && undos[i..][1..] == undos[i + 1..];
        if u.revision >= |h| || !u.othersPass {
          committed := false;
        } else {
          match h[u.revision].edit {
            case Keeps =>
            case CreatesTable(_) =>
              rows, check, validated := [], [], true;
            case Replaces(_, restored, guard) =>
              if exists op :: op in guard && op in rows {
                committed := false;
              } else {
                committed := AddCheck(restored, {});
              }
          }
          applied := applied - {u.revision};
        }
        i := i + 1;
      }
      if !committed {
        Restore(saved);
      }
    }
  }
}
