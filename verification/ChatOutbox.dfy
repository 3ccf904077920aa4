/** The transactional outbox of the chat channel: what the triggers on `incident.run_events` queue,
and when (revisions 20261030_02 and 20261030_07). */
module ChatOutbox {
  import opened Options

  type ChatId = int

  datatype Link = Link(chat: ChatId, code: string, principal: Option<string>)

  datatype Body =
    | DispatchBody(incident: string, run: string, event: string)
    | DecisionBody(incident: string, run: string, mitigation: string, link: string, principal: Option<string>,
                   version: Option<nat>)

  /** A queued message. Rows are numbered by position, as `message_id` numbers them. */
  datatype Row = Row(chat: ChatId, kind: string, key: string, body: Body)

  /** The tables involved; `links` in table order. */
  datatype Database = Database(links: seq<Link>, outbox: seq<Row>, versions: map<string, nat>)

  const ACK := "investigation_ack"
  const CONCLUSION := "investigation_conclusion"
  const DECISION := "mitigation_decision"

  // ------------------------------------------------------------------ deduplication keys

  function DispatchKey(kind: string, run: string): string {
    kind + ":" + run
  }

  function DecisionKey(run: string, mitigation: string): string {
    DECISION + ":" + run + ":" + mitigation
  }

  /** What one firing of a trigger queues for every linked chat. */
  datatype Notice =
    | Dispatch(conclusion: bool, incident: string, run: string, event: string)
    | Proposal(incident: string, run: string, mitigation: string, version: Option<nat>)
  {
    function Kind(): string {
      match this
      case Dispatch(conclusion, _, _, _) => if conclusion then CONCLUSION else ACK
      case Proposal(_, _, _, _) => DECISION
    }

    function Key(): string {
      match this
      case Dispatch(_, _, run, _) => DispatchKey(Kind(), run)
      case Proposal(_, run, mitigation, _) => DecisionKey(run, mitigation)
    }

    function RowFor(link: Link): Row {
      Row(link.chat, Kind(), Key(),
          match this
          case Dispatch(_, incident, run, event) => DispatchBody(incident, run, event)
          case Proposal(incident, run, mitigation, version) =>
            DecisionBody(incident, run, mitigation, link.code, link.principal, version))
    }
  }

  /** A dispatch notice and a proposal never share a key, and dispatch keys name kind and run. */
  lemma DispatchKeysAreInjective(n: Notice, conclusion: bool, incident: string, run: string, event: string)
    ensures n.Key() == Dispatch(conclusion, incident, run, event).Key() <==>
      n.Dispatch? && n.conclusion == conclusion && n.run == run
  {
    var m := Dispatch(conclusion, incident, run, event);
    assert m.Key()[|m.Kind()| + 1..] == run;
    assert m.Key()[0] == 'i' && m.Key()[14] == if conclusion then 'c' else 'a';
    match n
    case Dispatch(_, _, other, _) =>
      assert n.Key()[|n.Kind()| + 1..] == other;
      assert n.Key()[14] == if n.conclusion then 'c' else 'a';
    case Proposal(_, _, _, _) =>
      assert n.Key()[0] == 'm';
  }

  /** The longer run id is the shorter one, a colon and `x`; the mitigations make up for it. */
  predicate Shifted(run: string, mitigation: string, longer: string, shorter: string, x: string) {
    longer == run + ":" + x && mitigation == x + ":" + shorter
  }

  /** `longer` goes on after `run` with a colon. */
  predicate ExtendsByColon(run: string, longer: string) {
    |run| < |longer| && longer[..|run|] == run && longer[|run|] == ':'
  }

  /** Cutting the same text after two different ids. */
  lemma CutsAreShifted(a: string, b: string, c: string, d: string)
    requires |a| < |c| && a + ":" + b == c + ":" + d
    ensures ExtendsByColon(a, c) && Shifted(a, b, c, d, c[|a| + 1..])
  {
    var s, x := a + ":" + b, c[|a| + 1..];
    assert s[..|a|] == a && s[..|c|] == c && s[|a|] == ':';
    assert c[..|a|] == s[..|c|][..|a|] == a;
    assert c[|a|] == s[|a|];
    assert c == a + ":" + x;
    assert s[|a| + 1..] == b;
    assert c + ":" + d == (a + ":") + (x + ":" + d);
    assert s[|a| + 1..] == x + ":" + d;
  }

  lemma EqualCutsAgree(a: string, b: string, c: string, d: string)
    requires |a| == |c| && a + ":" + b == c + ":" + d
    ensures a == c && b == d
  {
    var s := a + ":" + b;
    assert s[..|a|] == a && s[..|c|] == c;
    assert s[|a| + 1..] == b && s[|c| + 1..] == d;
  }

  lemma KeyTail(run: string, mitigation: string)
    ensures DecisionKey(run, mitigation)[|DECISION| + 1..] == run + ":" + mitigation
    ensures DecisionKey(run, mitigation) == (DECISION + ":") + (run + ":" + mitigation)
  {
  }

  /** Two different proposals share a key exactly when one run id goes on after the other with a
      colon and some text, and the mitigations are shifted by that text. */
  lemma ProposalKeysCollideIff(run: string, mitigation: string, run2: string, mitigation2: string)
    requires run != run2 || mitigation != mitigation2
    ensures DecisionKey(run, mitigation) == DecisionKey(run2, mitigation2) <==>
      || (exists x :: Shifted(run, mitigation, run2, mitigation2, x))
      || (exists x :: Shifted(run2, mitigation2, run, mitigation, x))
  {
    KeyTail(run, mitigation);
    KeyTail(run2, mitigation2);
    if DecisionKey(run, mitigation) == DecisionKey(run2, mitigation2) {
      if |run| < |run2| {
        CutsAreShifted(run, mitigation, run2, mitigation2);
      } else if |run2| < |run| {
        CutsAreShifted(run2, mitigation2, run, mitigation);
      } else {
        EqualCutsAgree(run, mitigation, run2, mitigation2);
        assert false;
      }
    } else {
      forall x
        ensures !Shifted(run, mitigation, run2, mitigation2, x) && !Shifted(run2, mitigation2, run, mitigation, x)
      {
        assert (run + ":" + x) + ":" + mitigation2 == run + ":" + (x + ":" + mitigation2);
        assert (run2 + ":" + x) + ":" + mitigation == run2 + ":" + (x + ":" + mitigation);
      }
    }
  }

  ghost predicate CollisionFree(runs: set<string>) {
    forall run, mitigation, run2, mitigation2 ::
      (run in runs && run2 in runs && DecisionKey(run, mitigation) == DecisionKey(run2, mitigation2)) ==>
      run == run2 && mitigation == mitigation2
  }

  /** Run ids are collision-free for all mitigations exactly when none goes on after another with a
      colon. */
  lemma RunIdsAreCollisionFreeIff(runs: set<string>)
    ensures CollisionFree(runs) <==> forall run, run2 :: run in runs && run2 in runs ==> !ExtendsByColon(run, run2)
  {
    forall run, run2 | run in runs && run2 in runs && ExtendsByColon(run, run2)
      ensures !CollisionFree(runs)
    {
      var x := run2[|run| + 1..];
      assert run2 == run + ":" + x;
      assert Shifted(run, x + ":", run2, "", x);
      ProposalKeysCollideIff(run, x + ":", run2, "");
    }
    forall run, mitigation, run2, mitigation2 | run in runs && run2 in runs
      && DecisionKey(run, mitigation) == DecisionKey(run2, mitigation2) && (run != run2 || mitigation != mitigation2)
      ensures exists a, b :: a in runs && b in runs && ExtendsByColon(a, b)
    {
      ProposalKeysCollideIff(run, mitigation, run2, mitigation2);
      if x :| Shifted(run, mitigation, run2, mitigation2, x) {
        assert ExtendsByColon(run, run2);
      } else {
        var x :| Shifted(run2, mitigation2, run, mitigation, x);
        assert ExtendsByColon(run2, run);
      }
    }
  }

  /** `^run_[a-z0-9]{8,32}$`, the shape every schema demands of a run id. */
  predicate IsRunId(s: string) {
    12 <= |s| <= 36 && s[..4] == "run_" && forall i :: 4 <= i < |s| ==> 'a' <= s[i] <= 'z' || '0' <= s[i] <= '9'
  }

  /** So the repository's run ids never collide: proposal keys name run and mitigation. */
  lemma ProposalKeysAreInjective(run: string, mitigation: string, run2: string, mitigation2: string)
    requires IsRunId(run) && IsRunId(run2)
    ensures DecisionKey(run, mitigation) == DecisionKey(run2, mitigation2) <==> run == run2 && mitigation == mitigation2
  {
    forall a, b | a in {run, run2} && b in {run, run2}
      ensures !ExtendsByColon(a, b)
    {
      assert |a| < |b| ==> b[|a|] != ':';
    }
    RunIdsAreCollisionFreeIff({run, run2});
  }

  // ------------------------------------------------------------------ inserting

  predicate Holds(outbox: seq<Row>, chat: ChatId, key: string) {
    exists i :: 0 <= i < |outbox| && outbox[i].chat == chat && outbox[i].key == key
  }

  predicate Linked(links: seq<Link>, chat: ChatId) {
    exists i :: 0 <= i < |links| && links[i].chat == chat
  }

  /** `uq_chat_outbox_dedup`. */
  ghost predicate Deduplicated(outbox: seq<Row>) {
    forall i, j :: 0 <= i < j < |outbox| ==> outbox[i].chat != outbox[j].chat || outbox[i].key != outbox[j].key
  }

  /** `INSERT ... SELECT FROM chat_links ON CONFLICT DO NOTHING`. */
  function Enqueue(outbox: seq<Row>, links: seq<Link>, n: Notice): seq<Row>
    decreases |links|
  {
    if links == [] then outbox
    else
      var next := if Holds(outbox, links[0].chat, n.Key()) then outbox else outbox + [n.RowFor(links[0])];
      Enqueue(next, links[1..], n)
  }

  lemma AppendedRowIsHeld(outbox: seq<Row>, row: Row)
    ensures forall chat, key :: Holds(outbox + [row], chat, key) <==>
      Holds(outbox, chat, key) || (chat == row.chat && key == row.key)
  {
    forall chat, key | Holds(outbox, chat, key) || (chat == row.chat && key == row.key)
      ensures Holds(outbox + [row], chat, key)
    {
      if Holds(outbox, chat, key) {
        var i :| 0 <= i < |outbox| && outbox[i].chat == chat && outbox[i].key == key;
        assert (outbox + [row])[i] == outbox[i];
      } else {
        assert (outbox + [row])[|outbox|] == row;
      }
    }
  }

  /** The insert appends, keeps keys unique, and leaves exactly the linked chats holding the key;
      what it adds are this notice's rows. */
  lemma {:induction false} EnqueueReachesEveryLink(outbox: seq<Row>, links: seq<Link>, n: Notice)
    ensures outbox <= Enqueue(outbox, links, n)
    ensures Deduplicated(outbox) ==> Deduplicated(Enqueue(outbox, links, n))
    ensures forall chat, key :: Holds(Enqueue(outbox, links, n), chat, key) <==>
      Holds(outbox, chat, key) || (key == n.Key() && Linked(links, chat))
    ensures forall i :: |outbox| <= i < |Enqueue(outbox, links, n)| ==>
      exists l :: l in links && Enqueue(outbox, links, n)[i] == n.RowFor(l)
    decreases |links|
  {
    if links == [] {
    } else {
      var row := n.RowFor(links[0]);
      AppendedRowIsHeld(outbox, row);
      var next := if Holds(outbox, links[0].chat, n.Key()) then outbox else outbox + [row];
      EnqueueReachesEveryLink(next, links[1..], n);
      LinkedSplits(links);
      assert links[0] in links;
      assert forall l :: l in links[1..] ==> l in links;
    }
  }

  /** What a queued row says, word for word. */
  lemma QueuedRowsSay(outbox: seq<Row>, links: seq<Link>, n: Notice, i: nat)
    requires |outbox| <= i < |Enqueue(outbox, links, n)|
    ensures var row := Enqueue(outbox, links, n)[i];
      exists l :: l in links && row == (
        match n
        case Dispatch(false, incident, run, event) =>
          Row(l.chat, "investigation_ack", "investigation_ack" + ":" + run, DispatchBody(incident, run, event))
        case Dispatch(true, incident, run, event) =>
          Row(l.chat, "investigation_conclusion", "investigation_conclusion" + ":" + run,
              DispatchBody(incident, run, event))
        case Proposal(incident, run, mitigation, version) =>
          Row(l.chat, "mitigation_decision", "mitigation_decision" + ":" + run + ":" + mitigation,
              DecisionBody(incident, run, mitigation, l.code, l.principal, version)))
  {
    EnqueueReachesEveryLink(outbox, links, n);
    var l :| l in links && Enqueue(outbox, links, n)[i] == n.RowFor(l);
  }

  lemma LinkedSplits(links: seq<Link>)
    requires links != []
    ensures forall chat :: Linked(links, chat) <==> chat == links[0].chat || Linked(links[1..], chat)
  {
    forall chat | chat == links[0].chat || Linked(links[1..], chat)
      ensures Linked(links, chat)
    {
      if chat != links[0].chat {
        var i :| 0 <= i < |links[1..]| && links[1..][i].chat == chat;
        assert links[i + 1].chat == chat;
      }
    }
  }

  // ------------------------------------------------------------------ transactions

  /** What a transaction does that the triggers see. A proposal is a `propose_mitigation` state
      change; its mitigation id is None when the payload lacks it. */
  datatype Statement =
    | AdvanceIncident(incident: string)
    | Receipt(incident: string, run: string, event: string, phase: Option<string>)
    | Propose(incident: string, run: string, mitigation: Option<string>)

  /** The notice of the immediate trigger: intent acknowledges, outcome concludes, anything else
      queues nothing. */
  function ReceiptNotice(st: Statement): Option<Notice>
    requires st.Receipt?
  {
    if st.phase == Some("intent") then Some(Dispatch(false, st.incident, st.run, st.event))
    else if st.phase == Some("outcome") then Some(Dispatch(true, st.incident, st.run, st.event))
    else None
  }

  function VersionOf(db: Database, incident: string): Option<nat> {
    if incident in db.versions then Some(db.versions[incident]) else None
  }

  function Execute(db: Database, st: Statement): Database {
    match st
    case AdvanceIncident(i) => if i in db.versions then db.(versions := db.versions[i := db.versions[i] + 1]) else db
    case Receipt(_, _, _, _) =>
      (match ReceiptNotice(st)
       case None => db
       case Some(n) => db.(outbox := Enqueue(db.outbox, db.links, n)))
    case Propose(_, _, _) => db
  }

  function ExecuteAll(db: Database, stmts: seq<Statement>): Database
    decreases |stmts|
  {
    if stmts == [] then db else ExecuteAll(Execute(db, stmts[0]), stmts[1..])
  }

  /** The deferred trigger, at commit, for each proposal in order. A missing mitigation id makes
      the key null, which aborts the transaction as soon as there is a chat to ask. */
  function Commit(db: Database, stmts: seq<Statement>): Option<Database>
    decreases |stmts|
  {
    if stmts == [] then Some(db)
    else if !stmts[0].Propose? then Commit(db, stmts[1..])
    else if stmts[0].mitigation.None? then (if db.links == [] then Commit(db, stmts[1..]) else None)
    else
      var n := Proposal(stmts[0].incident, stmts[0].run, stmts[0].mitigation.value, VersionOf(db, stmts[0].incident));
      Commit(db.(outbox := Enqueue(db.outbox, db.links, n)), stmts[1..])
  }

  function Transact(db: Database, stmts: seq<Statement>): Option<Database> {
    Commit(ExecuteAll(db, stmts), stmts)
  }

  /** Some receipt of this phase and run is among the statements. */
  predicate HasReceipt(stmts: seq<Statement>, conclusion: bool, run: string) {
    exists i :: 0 <= i < |stmts| && stmts[i].Receipt? && stmts[i].run == run
      && stmts[i].phase == Some(if conclusion then "outcome" else "intent")
  }

  lemma PhasesDiffer()
    ensures "intent" != "outcome"
  {
    assert |"intent"| == 6 && |"outcome"| == 7;
  }

  lemma HasReceiptSplits(stmts: seq<Statement>, conclusion: bool, run: string)
    requires stmts != []
    ensures HasReceipt(stmts, conclusion, run) <==>
      HasReceipt([stmts[0]], conclusion, run) || HasReceipt(stmts[1..], conclusion, run)
  {
    if HasReceipt([stmts[0]], conclusion, run) {
      assert [stmts[0]][0] == stmts[0];
    }
    if HasReceipt(stmts[1..], conclusion, run) {
      var i :| 0 <= i < |stmts[1..]| && stmts[1..][i].Receipt? && stmts[1..][i].run == run
        && stmts[1..][i].phase == Some(if conclusion then "outcome" else "intent");
      assert stmts[i + 1] == stmts[1..][i];
    }
    if HasReceipt(stmts, conclusion, run) {
      var i :| 0 <= i < |stmts| && stmts[i].Receipt? && stmts[i].run == run
        && stmts[i].phase == Some(if conclusion then "outcome" else "intent");
      if i == 0 {
        assert [stmts[0]][0] == stmts[0];
      } else {
        assert stmts[1..][i - 1] == stmts[i];
      }
    }
  }

  /** One statement: appends dispatch rows only, and a chat comes to hold a dispatch key exactly
      when it is linked and the statement is a receipt of that phase and run. */
  lemma ExecuteDispatch(db: Database, st: Statement, chat: ChatId, conclusion: bool, run: string)
    ensures db.outbox <= Execute(db, st).outbox && Execute(db, st).links == db.links
    ensures Deduplicated(db.outbox) ==> Deduplicated(Execute(db, st).outbox)
    ensures forall i :: |db.outbox| <= i < |Execute(db, st).outbox| ==> Execute(db, st).outbox[i].body.DispatchBody?
    ensures Holds(Execute(db, st).outbox, chat, Dispatch(conclusion, "", run, "").Key()) <==>
      || Holds(db.outbox, chat, Dispatch(conclusion, "", run, "").Key())
      || (Linked(db.links, chat) && HasReceipt([st], conclusion, run))
  {
    PhasesDiffer();
    if st.Receipt? && ReceiptNotice(st).Some? {
      var n := ReceiptNotice(st).value;
      EnqueueReachesEveryLink(db.outbox, db.links, n);
      DispatchKeysAreInjective(n, conclusion, "", run, "");
    }
    assert HasReceipt([st], conclusion, run) ==>
      st.Receipt? && st.run == run && st.phase == Some(if conclusion then "outcome" else "intent");
    assert [st][0] == st;
  }

  lemma {:induction false} ExecuteAllDispatch(db: Database, stmts: seq<Statement>, chat: ChatId, conclusion: bool,
      run: string)
    ensures db.outbox <= ExecuteAll(db, stmts).outbox && ExecuteAll(db, stmts).links == db.links
    ensures Deduplicated(db.outbox) ==> Deduplicated(ExecuteAll(db, stmts).outbox)
    ensures forall i :: |db.outbox| <= i < |ExecuteAll(db, stmts).outbox| ==>
      ExecuteAll(db, stmts).outbox[i].body.DispatchBody?
    ensures Holds(ExecuteAll(db, stmts).outbox, chat, Dispatch(conclusion, "", run, "").Key()) <==>
      || Holds(db.outbox, chat, Dispatch(conclusion, "", run, "").Key())
      || (Linked(db.links, chat) && HasReceipt(stmts, conclusion, run))
    decreases |stmts|
  {
    if stmts == [] {
    } else {
      ExecuteDispatch(db, stmts[0], chat, conclusion, run);
      ExecuteAllDispatch(Execute(db, stmts[0]), stmts[1..], chat, conclusion, run);
      HasReceiptSplits(stmts, conclusion, run);
    }
  }

  /** The deferred inserts append decision rows only, each carrying the version then in force. */
  lemma {:induction false} CommitAsks(db: Database, stmts: seq<Statement>, chat: ChatId, conclusion: bool, run: string)
    requires Commit(db, stmts).Some?
    ensures var end := Commit(db, stmts).value;
      && end.links == db.links && end.versions == db.versions
      && db.outbox <= end.outbox
      && (Deduplicated(db.outbox) ==> Deduplicated(end.outbox))
      && (forall i :: |db.outbox| <= i < |end.outbox| ==>
            end.outbox[i].body.DecisionBody?
              && end.outbox[i].body.version == VersionOf(db, end.outbox[i].body.incident))
      && (Holds(end.outbox, chat, Dispatch(conclusion, "", run, "").Key()) <==>
          Holds(db.outbox, chat, Dispatch(conclusion, "", run, "").Key()))
    decreases |stmts|
  {
    if stmts == [] {
    } else {
      if stmts[0].Propose? && stmts[0].mitigation.Some? {
        var n := Proposal(stmts[0].incident, stmts[0].run, stmts[0].mitigation.value, VersionOf(db, stmts[0].incident));
        EnqueueReachesEveryLink(db.outbox, db.links, n);
        DispatchKeysAreInjective(n, conclusion, "", run, "");
        CommitAsks(db.(outbox := Enqueue(db.outbox, db.links, n)), stmts[1..], chat, conclusion, run);
      } else {
        CommitAsks(db, stmts[1..], chat, conclusion, run);
      }
    }
  }

  /** A committed transaction: rows are only appended; every decision row it queues carries the
      incident version the transaction committed, and comes after every dispatch row it queues. */
  lemma DecisionsCarryTheCommittedVersion(db: Database, stmts: seq<Statement>, i: nat)
    requires Transact(db, stmts).Some? && |db.outbox| <= i < |Transact(db, stmts).value.outbox|
    ensures db.outbox <= Transact(db, stmts).value.outbox
    ensures var end := Transact(db, stmts).value;
      var row := end.outbox[i];
      && (row.body.DecisionBody? ==> row.body.version == VersionOf(end, row.body.incident))
      && (row.body.DecisionBody? ==> forall j :: i < j < |end.outbox| ==> end.outbox[j].body.DecisionBody?)
  {
    var mid := ExecuteAll(db, stmts);
    ExecuteAllDispatch(db, stmts, 0, true, "");
    CommitAsks(mid, stmts, 0, true, "");
    var end := Transact(db, stmts).value;
    if i < |mid.outbox| {
      assert end.outbox[i] == mid.outbox[i];
    }
  }

  // ------------------------------------------------------------------ who is asked

  /** Some proposal of this run and mitigation is among the statements. */
  predicate HasProposal(stmts: seq<Statement>, run: string, mitigation: string) {
    exists i :: 0 <= i < |stmts| && stmts[i].Propose? && stmts[i].run == run && stmts[i].mitigation == Some(mitigation)
  }

  predicate ProperRuns(stmts: seq<Statement>) {
    forall i :: 0 <= i < |stmts| && stmts[i].Propose? ==> IsRunId(stmts[i].run)
  }

  lemma HasProposalSplits(stmts: seq<Statement>, run: string, mitigation: string)
    requires stmts != []
    ensures HasProposal(stmts, run, mitigation) <==>
      || (stmts[0].Propose? && stmts[0].run == run && stmts[0].mitigation == Some(mitigation))
      || HasProposal(stmts[1..], run, mitigation)
  {
    var rest := stmts[1..];
    if i :| 0 <= i < |rest| && rest[i].Propose? && rest[i].run == run && rest[i].mitigation == Some(mitigation) {
      assert stmts[i + 1] == rest[i];
    }
    if i :| 0 < i < |stmts| && stmts[i].Propose? && stmts[i].run == run && stmts[i].mitigation == Some(mitigation) {
      assert rest[i - 1] == stmts[i];
    }
  }

  /** The deferred trigger asks every linked chat, and only those, about exactly the proposals. */
  lemma {:induction false} CommitAsksExactly(db: Database, stmts: seq<Statement>, chat: ChatId, run: string,
      mitigation: string)
    requires Commit(db, stmts).Some? && ProperRuns(stmts) && IsRunId(run)
    ensures Holds(Commit(db, stmts).value.outbox, chat, DecisionKey(run, mitigation)) <==>
      || Holds(db.outbox, chat, DecisionKey(run, mitigation))
      || (Linked(db.links, chat) && HasProposal(stmts, run, mitigation))
    decreases |stmts|
  {
    if stmts == [] {
    } else {
      var st, rest := stmts[0], stmts[1..];
      HasProposalSplits(stmts, run, mitigation);
      if st.Propose? && st.mitigation.Some? {
        var n := Proposal(st.incident, st.run, st.mitigation.value, VersionOf(db, st.incident));
        EnqueueReachesEveryLink(db.outbox, db.links, n);
        ProposalKeysAreInjective(st.run, st.mitigation.value, run, mitigation);
        CommitAsksExactly(db.(outbox := Enqueue(db.outbox, db.links, n)), rest, chat, run, mitigation);
      } else {
        CommitAsksExactly(db, rest, chat, run, mitigation);
      }
    }
  }

  /** The only transactions that fail: a proposal without a mitigation while some chat is linked. */
  lemma {:induction false} CommitFailsIff(db: Database, stmts: seq<Statement>)
    ensures Commit(db, stmts).None? <==>
      db.links != [] && exists i :: 0 <= i < |stmts| && stmts[i].Propose? && stmts[i].mitigation == None
    decreases |stmts|
  {
    if stmts == [] {
    } else {
      var st, rest := stmts[0], stmts[1..];
      if i :| 0 <= i < |rest| && rest[i].Propose? && rest[i].mitigation == None {
        assert stmts[i + 1] == rest[i];
      }
      if i :| 0 < i < |stmts| && stmts[i].Propose? && stmts[i].mitigation == None {
        assert rest[i - 1] == stmts[i];
      }
      if st.Propose? && st.mitigation.Some? {
        var n := Proposal(st.incident, st.run, st.mitigation.value, VersionOf(db, st.incident));
        CommitFailsIff(db.(outbox := Enqueue(db.outbox, db.links, n)), rest);
      } else {
        CommitFailsIff(db, rest);
      }
    }
  }

  /** Statements ask nobody themselves; what they do is advance versions, one by one. */
  lemma {:induction false} StatementsAskNobody(db: Database, stmts: seq<Statement>, chat: ChatId, run: string,
      mitigation: string)
    ensures Holds(ExecuteAll(db, stmts).outbox, chat, DecisionKey(run, mitigation)) <==>
      Holds(db.outbox, chat, DecisionKey(run, mitigation))
    ensures ExecuteAll(db, stmts).links == db.links
    decreases |stmts|
  {
    if stmts == [] {
    } else {
      var st := stmts[0];
      if st.Receipt? && ReceiptNotice(st).Some? {
        var n := ReceiptNotice(st).value;
        EnqueueReachesEveryLink(db.outbox, db.links, n);
        DispatchKeysAreInjective(Proposal("", run, mitigation, None), n.conclusion, n.incident, n.run, n.event);
      }
      StatementsAskNobody(Execute(db, st), stmts[1..], chat, run, mitigation);
    }
  }

  /** This row asks this chat about this proposal, at this version. */
  predicate Asks(row: Row, st: Statement, l: Link, version: Option<nat>) {
    && st.Propose? && st.mitigation.Some?
    && row == Row(l.chat, "mitigation_decision", "mitigation_decision" + ":" + st.run + ":" + st.mitigation.value,
                  DecisionBody(st.incident, st.run, st.mitigation.value, l.code, l.principal, version))
  }

  /** This row tells this chat about this receipt. */
  predicate Tells(row: Row, st: Statement, l: Link) {
    && st.Receipt? && (st.phase == Some("intent") || st.phase == Some("outcome"))
    && var kind := if st.phase == Some("intent") then "investigation_ack" else "investigation_conclusion";
       row == Row(l.chat, kind, kind + ":" + st.run, DispatchBody(st.incident, st.run, st.event))
  }

  ghost predicate AsksSomeone(row: Row, stmts: seq<Statement>, db: Database) {
    exists st, l :: st in stmts && l in db.links && Asks(row, st, l, VersionOf(db, st.incident))
  }

  ghost predicate TellsSomeone(row: Row, stmts: seq<Statement>, links: seq<Link>) {
    exists st, l :: st in stmts && l in links && Tells(row, st, l)
  }

  /** Every row the deferred trigger queues asks a linked chat about a proposal of the transaction. */
  lemma {:induction false} DecisionRowsSay(db: Database, stmts: seq<Statement>, i: nat)
    requires Commit(db, stmts).Some? && |db.outbox| <= i < |Commit(db, stmts).value.outbox|
    ensures AsksSomeone(Commit(db, stmts).value.outbox[i], stmts, db)
    decreases |stmts|
  {
    var st, rest := stmts[0], stmts[1..];
    assert forall other :: other in rest ==> other in stmts;
    if st.Propose? && st.mitigation.Some? {
      var n := Proposal(st.incident, st.run, st.mitigation.value, VersionOf(db, st.incident));
      var next := db.(outbox := Enqueue(db.outbox, db.links, n));
      CommitAsks(next, rest, 0, true, "");
      if i < |next.outbox| {
        QueuedRowsSay(db.outbox, db.links, n, i);
        assert Commit(db, stmts).value.outbox[i] == next.outbox[i];
        assert st in stmts;
      } else {
        DecisionRowsSay(next, rest, i);
      }
    } else {
      DecisionRowsSay(db, rest, i);
    }
  }

  lemma ReceiptRowsSay(db: Database, st: Statement, i: nat)
    requires |db.outbox| <= i < |Execute(db, st).outbox|
    ensures exists l :: l in db.links && Tells(Execute(db, st).outbox[i], st, l)
  {
    PhasesDiffer();
    QueuedRowsSay(db.outbox, db.links, ReceiptNotice(st).value, i);
  }

  /** Every row the immediate trigger queues tells a linked chat about a receipt of the transaction. */
  lemma {:induction false} DispatchRowsSay(db: Database, stmts: seq<Statement>, i: nat)
    requires |db.outbox| <= i < |ExecuteAll(db, stmts).outbox|
    ensures TellsSomeone(ExecuteAll(db, stmts).outbox[i], stmts, db.links)
    decreases |stmts|
  {
    var st, rest := stmts[0], stmts[1..];
    assert forall other :: other in rest ==> other in stmts;
    var next := Execute(db, st);
    ExecuteAllDispatch(next, rest, 0, true, "");
    assert next.links == db.links;
    if i < |next.outbox| {
      ReceiptRowsSay(db, st, i);
      assert ExecuteAll(db, stmts).outbox[i] == next.outbox[i];
      assert st in stmts;
    } else {
      DispatchRowsSay(next, rest, i);
    }
  }

  function Advances(stmts: seq<Statement>, incident: string): nat {
    if stmts == [] then 0 else (if stmts[0] == AdvanceIncident(incident) then 1 else 0) + Advances(stmts[1..], incident)
  }

  /** A transaction commits each incident at its version before, moved up once per advance. */
  lemma {:induction false} VersionsAdvance(db: Database, stmts: seq<Statement>, incident: string)
    ensures VersionOf(ExecuteAll(db, stmts), incident) ==
      if incident in db.versions then Some(db.versions[incident] + Advances(stmts, incident)) else None
    decreases |stmts|
  {
    if stmts == [] {
    } else {
      VersionsAdvance(Execute(db, stmts[0]), stmts[1..], incident);
    }
  }

  // ------------------------------------------------------------------ histories

  datatype Event =
    | LinkChat(link: Link)
    | UnlinkChat(chat: ChatId)
    | Transaction(stmts: seq<Statement>)

  function Without(links: seq<Link>, chat: ChatId): seq<Link> {
    if links == [] then [] else (if links[0].chat == chat then [] else [links[0]]) + Without(links[1..], chat)
  }

  lemma {:induction false} UnlinkedIsGone(links: seq<Link>, chat: ChatId, other: ChatId)
    ensures Linked(Without(links, chat), other) <==> other != chat && Linked(links, other)
  {
    if links == [] {
    } else {
      UnlinkedIsGone(links[1..], chat, other);
      LinkedSplits(links);
      var rest := Without(links[1..], chat);
      if links[0].chat != chat {
        LinkedSplits([links[0]] + rest);
        assert ([links[0]] + rest)[1..] == rest;
      } else {
        assert Without(links, chat) == rest;
      }
    }
  }

  /** Linking a linked chat is refused by the primary key; an aborted transaction changes nothing. */
  function Next(db: Database, e: Event): Database {
    match e
    case LinkChat(link) => if Linked(db.links, link.chat) then db else db.(links := db.links + [link])
    case UnlinkChat(chat) => db.(links := Without(db.links, chat))
    case Transaction(stmts) => if Transact(db, stmts).Some? then Transact(db, stmts).value else db
  }

  ghost predicate IsHistory(dbs: seq<Database>, events: seq<Event>) {
    && |dbs| == |events| + 1
    && dbs[0].outbox == []
    && forall i :: 0 <= i < |events| ==> dbs[i + 1] == Next(dbs[i], events[i])
  }

  /** A committed receipt of this phase and run, while the chat was linked. */
  ghost predicate NotifiedAt(dbs: seq<Database>, events: seq<Event>, i: nat, chat: ChatId, conclusion: bool,
      run: string)
    requires |dbs| == |events| + 1 && i < |events|
  {
    && events[i].Transaction?
    && Transact(dbs[i], events[i].stmts).Some?
    && Linked(dbs[i].links, chat)
    && HasReceipt(events[i].stmts, conclusion, run)
  }

  /** One event: the chat comes to hold the message exactly when the event notifies it. */
  lemma NextNotifies(db: Database, e: Event, chat: ChatId, conclusion: bool, run: string)
    ensures Deduplicated(db.outbox) ==> Deduplicated(Next(db, e).outbox)
    ensures Holds(Next(db, e).outbox, chat, Dispatch(conclusion, "", run, "").Key()) <==>
      || Holds(db.outbox, chat, Dispatch(conclusion, "", run, "").Key())
      || (e.Transaction? && Transact(db, e.stmts).Some? && Linked(db.links, chat)
        && HasReceipt(e.stmts, conclusion, run))
  {
    if e.Transaction? && Transact(db, e.stmts).Some? {
      ExecuteAllDispatch(db, e.stmts, chat, conclusion, run);
      CommitAsks(ExecuteAll(db, e.stmts), e.stmts, chat, conclusion, run);
    }
  }

  /** Over every history of links, unlinks and transactions, a chat holds the acknowledgment (or
      conclusion) of a run exactly when some committed receipt of that phase found it linked, and
      no message is ever queued twice however often receipts repeat. */
  lemma {:induction false} ExactlyTheLinkedChatsAreNotified(dbs: seq<Database>, events: seq<Event>, n: nat,
      chat: ChatId, conclusion: bool, run: string)
    requires IsHistory(dbs, events) && n <= |events|
    ensures Deduplicated(dbs[n].outbox)
    ensures Holds(dbs[n].outbox, chat, Dispatch(conclusion, "", run, "").Key()) <==>
      exists i :: 0 <= i < n && NotifiedAt(dbs, events, i, chat, conclusion, run)
    decreases n
  {
    if n == 0 {
    } else {
      var m := n - 1;
      ExactlyTheLinkedChatsAreNotified(dbs, events, m, chat, conclusion, run);
      NextNotifies(dbs[m], events[m], chat, conclusion, run);
      assert dbs[n] == Next(dbs[m], events[m]);
      if NotifiedAt(dbs, events, m, chat, conclusion, run) {
        assert Holds(dbs[n].outbox, chat, Dispatch(conclusion, "", run, "").Key());
      }
    }
  }

  /** What linking and unlinking do: they decide who is linked, and nothing else. */
  lemma LinksFollow(db: Database, link: Link, chat: ChatId, other: ChatId)
    ensures Linked(Next(db, LinkChat(link)).links, other) <==> other == link.chat || Linked(db.links, other)
    ensures Linked(Next(db, UnlinkChat(chat)).links, other) <==> other != chat && Linked(db.links, other)
    ensures Next(db, LinkChat(link)).outbox == db.outbox && Next(db, UnlinkChat(chat)).outbox == db.outbox
  {
    UnlinkedIsGone(db.links, chat, other);
    var links := db.links + [link];
    assert links[|db.links|] == link;
    if i :| 0 <= i < |db.links| && db.links[i].chat == other {
      assert links[i] == db.links[i];
    }
  }

  /** A committed proposal of this run and mitigation, while the chat was linked. */
  ghost predicate AskedAt(dbs: seq<Database>, events: seq<Event>, i: nat, chat: ChatId, run: string, mitigation: string)
    requires i < |events| && i < |dbs|
  {
    && events[i].Transaction? && Transact(dbs[i], events[i].stmts).Some?
    && Linked(dbs[i].links, chat) && HasProposal(events[i].stmts, run, mitigation)
  }

  lemma NextAsks(db: Database, e: Event, chat: ChatId, run: string, mitigation: string)
    requires IsRunId(run) && (e.Transaction? ==> ProperRuns(e.stmts))
    ensures Holds(Next(db, e).outbox, chat, DecisionKey(run, mitigation)) <==>
      || Holds(db.outbox, chat, DecisionKey(run, mitigation))
      || (e.Transaction? && Transact(db, e.stmts).Some? && Linked(db.links, chat)
        && HasProposal(e.stmts, run, mitigation))
  {
    if e.Transaction? && Transact(db, e.stmts).Some? {
      StatementsAskNobody(db, e.stmts, chat, run, mitigation);
      CommitAsksExactly(ExecuteAll(db, e.stmts), e.stmts, chat, run, mitigation);
    }
  }

  /** Over every history a chat holds the decision message of a run and mitigation exactly when some
      committed proposal of them found it linked. */
  lemma {:induction false} ExactlyTheLinkedChatsAreAsked(dbs: seq<Database>, events: seq<Event>, n: nat, chat: ChatId,
      run: string, mitigation: string)
    requires IsHistory(dbs, events) && n <= |events| && IsRunId(run)
    requires forall i :: 0 <= i < |events| && events[i].Transaction? ==> ProperRuns(events[i].stmts)
    ensures Holds(dbs[n].outbox, chat, DecisionKey(run, mitigation)) <==>
      exists i :: 0 <= i < n && AskedAt(dbs, events, i, chat, run, mitigation)
    decreases n
  {
    if n == 0 {
    } else {
      ExactlyTheLinkedChatsAreAsked(dbs, events, n - 1, chat, run, mitigation);
      NextAsks(dbs[n - 1], events[n - 1], chat, run, mitigation);
      assert AskedAt(dbs, events, n - 1, chat, run, mitigation) <==>
        && events[n - 1].Transaction? && Transact(dbs[n - 1], events[n - 1].stmts).Some?
        && Linked(dbs[n - 1].links, chat) && HasProposal(events[n - 1].stmts, run, mitigation);
    }
  }

  // ------------------------------------------------------------------ the triggers, in place

  class Store {
    var links: seq<Link>
    var outbox: seq<Row>
    var versions: map<string, nat>

    function Value(): Database
      reads this
    {
      Database(links, outbox, versions)
    }

    method Insert(n: Notice)
      modifies this`outbox
      ensures outbox == Enqueue(old(outbox), links, n)
    {
      for i := 0 to |links|
        invariant Enqueue(old(outbox), links, n) == Enqueue(outbox, links[i..], n)
      {
        assert links[i..][0] == links[i] && links[i..][1..] == links[i + 1..];
        if !Holds(outbox, links[i].chat, n.Key()) {
          outbox := outbox + [n.RowFor(links[i])];
        }
      }
    }

    /** One transaction: statements with their immediate triggers, then the deferred ones; an
        error rolls everything back. */
    method Run(stmts: seq<Statement>) returns (committed: bool)
      modifies this
      ensures committed <==> Transact(old(Value()), stmts).Some?
      ensures Value() == if committed then Transact(old(Value()), stmts).value else old(Value())
    {
      var saved := outbox;
      var savedVersions := versions;
      for i := 0 to |stmts|
        invariant links == old(links)
        invariant ExecuteAll(old(Value()), stmts) == ExecuteAll(Value(), stmts[i..])
      {
        assert stmts[i..][0] == stmts[i] && stmts[i..][1..] == stmts[i + 1..];
        match stmts[i] {
          case AdvanceIncident(incident) =>
            if incident in versions {
              versions := versions[incident := versions[incident] + 1];
            }
          case Receipt(_, _, _, _) =>
            var n := ReceiptNotice(stmts[i]);
            if n.Some? {
              Insert(n.value);
            }
          case Propose(_, _, _) =>
        }
      }
      for i := 0 to |stmts|
        invariant links == old(links)
        invariant Transact(old(Value()), stmts) == Commit(Value(), stmts[i..])
      {
        assert stmts[i..][0] == stmts[i] && stmts[i..][1..] == stmts[i + 1..];
        if stmts[i].Propose? {
          var st := stmts[i];
          if st.mitigation.Some? {
            var version := if st.incident in versions then Some(versions[st.incident]) else None;
            Insert(Proposal(st.incident, st.run, st.mitigation.value, version));
          } else if links != [] {
            outbox, versions := saved, savedVersions;
            return false;
          }
        }
      }
      committed := true;
    }
  }
}
