/** Reservations against the incident and monthly limits: admission, settlement and what every run
of them keeps (`src/sre_agent/gateway/consumption_admission.py`). */
module ConsumptionLedger {
  import opened Options
  import opened Affordability

  datatype Status = Reserved | Settled(tokens: int, usd: Option<real>)

  datatype Reservation = Reservation(
    id: string,
    incident: Option<string>,
    period: int,
    tokens: Option<int>,
    usd: Option<real>,
    status: Status)

  datatype Policy = Policy(version: nat, incidentLimit: Option<int>, monthlyLimit: Option<real>)

  /** The bill in the audit event of one answered request; it may fall into a later month. */
  datatype Bill = Bill(request: string, period: int, usd: real)

  /** The rows admission reads: the one policy, the known incidents, the reservations and the audited
      bills, one a request. */
  datatype Books = Books(policy: Option<Policy>, incidents: set<string>, rows: seq<Reservation>, bills: seq<Bill>)

  /** A call to admit. `endpoint` is what the catalog's worst case offers, if the catalog answers;
      `written` is how the month's balance comes out written. */
  datatype Call = Call(
    id: string, incident: Option<string>, period: int, endpoint: Option<Endpoint>, input: Option<int>, written: Written)

  datatype Reason =
    PolicyUnavailable | BoundsUnavailable | IncidentLimitExceeded | MonthlyLimitExceeded | ResourceNotFound

  datatype Outcome = Unlimited | Admitted(cap: int) | Refused(reason: Reason) | DuplicateId

  // ------------------------------------------------------------------ balances

  /** A settled reservation counts what it was billed, an open one its exposure; NULL counts nothing. */
  function TokensOf(r: Reservation): int {
    match r.status
    case Settled(tokens, _) => tokens
    case Reserved => if r.tokens.Some? then r.tokens.value else 0
  }

  function Amount(usd: Option<real>): real {
    if usd.Some? then usd.value else 0.0
  }

  function UsdOf(r: Reservation): real {
    match r.status
    case Settled(_, usd) => Amount(usd)
    case Reserved => Amount(r.usd)
  }

  function IncidentUsed(rows: seq<Reservation>, incident: string, period: int): int {
    if rows == [] then 0
    else
      (if rows[0].incident == Some(incident) && rows[0].period == period then TokensOf(rows[0]) else 0)
      + IncidentUsed(rows[1..], incident, period)
  }

  function MonthUsed(rows: seq<Reservation>, period: int): real {
    if rows == [] then 0.0
    else (if rows[0].period == period then UsdOf(rows[0]) else 0.0) + MonthUsed(rows[1..], period)
  }

  /** A reservation accounts for its request's spend while its own figure is known. */
  predicate OwnsSpend(r: Reservation) {
    match r.status
    case Reserved => r.usd.Some?
    case Settled(_, usd) => usd.Some?
  }

  predicate Owned(rows: seq<Reservation>, request: string) {
    exists k :: 0 <= k < |rows| && rows[k].id == request && OwnsSpend(rows[k])
  }

  /** `_legacy_usage`: the audited bills of the month that no reservation accounts for. */
  function Legacy(bills: seq<Bill>, rows: seq<Reservation>, period: int): real {
    if bills == [] then 0.0
    else
      (if bills[0].period == period && !Owned(rows, bills[0].request) then bills[0].usd else 0.0)
      + Legacy(bills[1..], rows, period)
  }

  /** All of the month's spend, reserved, settled or only audited. */
  function MonthTotal(b: Books, period: int): real {
    MonthUsed(b.rows, period) + Legacy(b.bills, b.rows, period)
  }

  function IncidentRemaining(b: Books, p: Policy, c: Call): Option<int> {
    if p.incidentLimit.None? || c.incident.None? then None
    else Some(p.incidentLimit.value - IncidentUsed(b.rows, c.incident.value, c.period))
  }

  function MonthlyRemaining(b: Books, p: Policy, c: Call): Option<real> {
    if p.monthlyLimit.None? then None else Some(p.monthlyLimit.value - MonthTotal(b, c.period))
  }

  function RequestOf(b: Books, p: Policy, c: Call): Request {
    Request(IncidentRemaining(b, p, c), MonthlyRemaining(b, p, c), c.written, c.input)
  }

  // ------------------------------------------------------------------ admission

  /** `_deny_reason`. */
  function DenyReason(incident: Option<int>, monthly: Option<real>): Reason {
    if incident.Some? && monthly.None? then IncidentLimitExceeded
    else if monthly.Some? && incident.None? then MonthlyLimitExceeded
    else if monthly.Some? && monthly.value <= 0.0 then MonthlyLimitExceeded
    else if incident.Some? then IncidentLimitExceeded
    else MonthlyLimitExceeded
  }

  predicate LimitActive(b: Books) {
    b.policy.Some? && (b.policy.value.incidentLimit.Some? || b.policy.value.monthlyLimit.Some?)
  }

  predicate PricesKnown(e: Endpoint) {
    e.promptPrice.Some? && e.completionPrice.Some? && e.requestPrice.Some?
  }

  /** Why a call is refused, if it is. */
  function Refusal(b: Books, c: Call): Option<Reason> {
    if b.policy.None? then Some(PolicyUnavailable)
    else if !LimitActive(b) then None
    else if c.endpoint.None? then Some(BoundsUnavailable)
    else
      var p, e, r := b.policy.value, c.endpoint.value, RequestOf(b, b.policy.value, c);
      if p.monthlyLimit.Some? && !PricesKnown(e) then Some(BoundsUnavailable)
      else if !Usable(e, r) || !Fits(e, r, 1) then Some(DenyReason(r.incident, r.monthly))
      else if c.incident.Some? && c.incident.value !in b.incidents then Some(ResourceNotFound)
      else None
  }

  predicate IdTaken(b: Books, id: string) {
    exists k :: 0 <= k < |b.rows| && b.rows[k].id == id
  }

  /** The reservation made for a call admitted with `cap`. */
  function ReservationFor(p: Policy, c: Call, e: Endpoint, r: Request, cap: int): Reservation {
    Reservation(c.id, c.incident, c.period,
      if p.incidentLimit.Some? then Some(InputBound(e, r) + cap) else None,
      if p.monthlyLimit.Some? then Some(Exposure(e, r, cap)) else None,
      Reserved)
  }

  /** One admission: a reservation exactly for calls admitted under an active limit, and nothing else
      changes. */
  predicate AdmitStep(b: Books, c: Call, o: Outcome, b': Books) {
    match o
    case Refused(reason) => Refusal(b, c) == Some(reason) && b' == b
    case Unlimited => Refusal(b, c).None? && !LimitActive(b) && b' == b
    case DuplicateId => LimitActive(b) && Refusal(b, c) in {None, Some(ResourceNotFound)} && IdTaken(b, c.id) && b' == b
    case Admitted(cap) =>
      && Refusal(b, c).None? && LimitActive(b) && c.endpoint.Some? && !IdTaken(b, c.id)
      && var p, e, r := b.policy.value, c.endpoint.value, RequestOf(b, b.policy.value, c);
         Admits(e, r, cap) && b' == b.(rows := b.rows + [ReservationFor(p, c, e, r, cap)])
  }

  // ------------------------------------------------------------------ settlement

  datatype Settlement = Unknown | Negative | AlreadySettled | Done

  function SettledRows(rows: seq<Reservation>, k: int, tokens: int, usd: Option<real>): seq<Reservation>
    requires 0 <= k < |rows|
  {
    rows[k := rows[k].(status := Settled(tokens, usd))]
  }

  predicate OpenAt(b: Books, k: int, id: string) {
    0 <= k < |b.rows| && b.rows[k].id == id && b.rows[k].status.Reserved?
  }

  /** One settlement: only an open reservation changes, and only once. */
  ghost predicate SettleStep(b: Books, id: string, tokens: int, usd: Option<real>, o: Settlement, b': Books) {
    match o
    case Unknown => !IdTaken(b, id) && b' == b
    case AlreadySettled => b' == b && exists k :: 0 <= k < |b.rows| && b.rows[k].id == id && b.rows[k].status.Settled?
    case Negative => tokens < 0 && b' == b && exists k :: OpenAt(b, k, id)
    case Done =>
      tokens >= 0 && exists k :: OpenAt(b, k, id) && b' == b.(rows := SettledRows(b.rows, k, tokens, usd))
  }

  // ------------------------------------------------------------------ the service

  class AdmissionService {
    var policy: Option<Policy>
    var incidents: set<string>
    var rows: seq<Reservation>
    var bills: seq<Bill>

    function State(): Books
      reads this
    {
      Books(policy, incidents, rows, bills)
    }

    constructor (policy: Option<Policy>, incidents: set<string>)
      ensures State() == Books(policy, incidents, [], [])
    {
      this.policy, this.incidents, rows, bills := policy, incidents, [], [];
    }

    method Find(id: string) returns (k: Option<int>)
      ensures k.None? <==> !IdTaken(State(), id)
      ensures k.Some? ==> 0 <= k.value < |rows| && rows[k.value].id == id
    {
      for i := 0 to |rows|
        invariant forall j :: 0 <= j < i ==> rows[j].id != id
      {
        if rows[i].id == id {
          return Some(i);
        }
      }
      k := None;
    }

    method Admit(c: Call) returns (o: Outcome)
      modifies this`rows
      ensures AdmitStep(old(State()), c, o, State())
    {
      if policy.None? {
        return Refused(PolicyUnavailable);
      }
      var p := policy.value;
      if p.incidentLimit.None? && p.monthlyLimit.None? {
        return Unlimited;
      }
      if c.endpoint.None? {
        return Refused(BoundsUnavailable);
      }
      var e := c.endpoint.value;
      var r := RequestOf(State(), p, c);
      if p.monthlyLimit.Some? && !PricesKnown(e) {
        return Refused(BoundsUnavailable);
      }
      var cap := CalculateAffordability(e, r);
      if cap.None? {
        return Refused(DenyReason(r.incident, r.monthly));
      }
      var taken := Find(c.id);
      if taken.Some? {
        return DuplicateId;
      }
      if c.incident.Some? && c.incident.value !in incidents {
        return Refused(ResourceNotFound);
      }
      rows := rows + [ReservationFor(p, c, e, r, cap.value)];
      o := Admitted(cap.value);
    }

    method Settle(id: string, tokens: int, usd: Option<real>) returns (o: Settlement)
      modifies this`rows
      ensures SettleStep(old(State()), id, tokens, usd, o, State())
    {
      var k := Find(id);
      if k.None? {
        return Unknown;
      }
      if rows[k.value].status.Settled? {
        return AlreadySettled;
      }
      assert OpenAt(State(), k.value, id);
      if tokens < 0 {
        return Negative;
      }
      rows := SettledRows(rows, k.value, tokens, usd);
      o := Done;
    }
  }

  // ------------------------------------------------------------------ sums

  lemma {:induction false} AppendedSums(rows: seq<Reservation>, r: Reservation, incident: string, period: int)
    ensures IncidentUsed(rows + [r], incident, period) ==
      IncidentUsed(rows, incident, period) + IncidentUsed([r], incident, period)
    ensures MonthUsed(rows + [r], period) == MonthUsed(rows, period) + MonthUsed([r], period)
  {
    if rows == [] {
      assert rows + [r] == [r];
    } else {
      AppendedSums(rows[1..], r, incident, period);
      assert (rows + [r])[1..] == rows[1..] + [r];
    }
  }

  lemma {:induction false} ReplacedSums(rows: seq<Reservation>, k: int, r: Reservation, incident: string, period: int)
    requires 0 <= k < |rows|
    ensures IncidentUsed(rows[k := r], incident, period) ==
      IncidentUsed(rows, incident, period)
      - IncidentUsed([rows[k]], incident, period) + IncidentUsed([r], incident, period)
    ensures MonthUsed(rows[k := r], period) ==
      MonthUsed(rows, period) - MonthUsed([rows[k]], period) + MonthUsed([r], period)
  {
    if k == 0 {
      assert rows[0 := r][1..] == rows[1..];
    } else {
      ReplacedSums(rows[1..], k - 1, r, incident, period);
      assert rows[k := r][1..] == rows[1..][k - 1 := r];
    }
  }

  // ------------------------------------------------------------------ what the books say

  /** What one row adds to the tokens of its own incident and month, and to no other's: the settled
      count, or while it is open the reserved one. */
  lemma AppendedRowCounts(rows: seq<Reservation>, r: Reservation, incident: string, period: int)
    ensures IncidentUsed([], incident, period) == 0 && MonthUsed([], period) == 0.0
    ensures IncidentUsed(rows + [r], incident, period) - IncidentUsed(rows, incident, period) ==
      if r.incident != Some(incident) || r.period != period then 0
      else match r
        case Reservation(_, _, _, _, _, Settled(tokens, _)) => tokens
        case Reservation(_, _, _, Some(tokens), _, Reserved) => tokens
        case Reservation(_, _, _, None, _, Reserved) => 0
    ensures MonthUsed(rows + [r], period) - MonthUsed(rows, period) ==
      if r.period != period then 0.0
      else match r
        case Reservation(_, _, _, _, _, Settled(_, Some(usd))) => usd
        case Reservation(_, _, _, _, _, Settled(_, None)) => 0.0
        case Reservation(_, _, _, _, Some(usd), Reserved) => usd
        case Reservation(_, _, _, _, None, Reserved) => 0.0
  {
    AppendedSums(rows, r, incident, period);
    assert [r][1..] == [];
  }

  lemma {:induction false} AppendedBill(bills: seq<Bill>, bill: Bill, rows: seq<Reservation>, period: int)
    ensures Legacy(bills + [bill], rows, period) == Legacy(bills, rows, period) + Legacy([bill], rows, period)
  {
    if bills == [] {
      assert bills + [bill] == [bill];
    } else {
      AppendedBill(bills[1..], bill, rows, period);
      assert (bills + [bill])[1..] == bills[1..] + [bill];
    }
  }

  /** The reservation's own figure is known: the reserved cost while open, the billed one after. */
  predicate KnowsCost(r: Reservation) {
    (r.status.Reserved? && r.usd.Some?) || (r.status.Settled? && r.status.usd.Some?)
  }

  /** What one audited bill adds to the month: its amount, in its own month, unless a reservation of
      its request knows a cost. */
  lemma AppendedBillCounts(bills: seq<Bill>, bill: Bill, rows: seq<Reservation>, period: int)
    ensures Legacy([], rows, period) == 0.0
    ensures Legacy(bills + [bill], rows, period) - Legacy(bills, rows, period) ==
      if bill.period != period || (exists k :: 0 <= k < |rows| && rows[k].id == bill.request && KnowsCost(rows[k]))
      then 0.0 else bill.usd
  {
    AppendedBill(bills, bill, rows, period);
    assert [bill][1..] == [];
    assert forall k :: 0 <= k < |rows| ==> (KnowsCost(rows[k]) <==> OwnsSpend(rows[k]));
  }

  /** What the admission weighs: the limits less what the books count against them. */
  function Weighed(b: Books, p: Policy, c: Call): Request {
    Request(
      match (p.incidentLimit, c.incident)
        case (Some(limit), Some(incident)) => Some(limit - IncidentUsed(b.rows, incident, c.period))
        case _ => None,
      match p.monthlyLimit
        case Some(limit) => Some(limit - MonthUsed(b.rows, c.period) - Legacy(b.bills, b.rows, c.period))
        case None => None,
      c.written, c.input)
  }

  /** Which calls are refused, and with which reason, over the policy's two limits, the endpoint and
      what is within every limit. */
  lemma RefusalSays(b: Books, c: Call)
    ensures Refusal(b, c) ==
      match b.policy
      case None => Some(PolicyUnavailable)
      case Some(Policy(_, None, None)) => None
      case Some(p) =>
        (match c.endpoint
         case None => Some(BoundsUnavailable)
         case Some(e) =>
           var r := Weighed(b, p, c);
           if p.monthlyLimit.Some? && None in [e.promptPrice, e.completionPrice, e.requestPrice]
           then Some(BoundsUnavailable)
           else if !Proper(e, r) || !WithinEveryLimit(e, r, 1) then
             Some(if r.incident.Some? && (r.monthly.None? || r.monthly.value > 0.0)
                  then IncidentLimitExceeded else MonthlyLimitExceeded)
           else if c.incident.Some? && c.incident.value !in b.incidents then Some(ResourceNotFound)
           else None)
  {
    if b.policy.Some? && c.endpoint.Some? {
      var p, e := b.policy.value, c.endpoint.value;
      var prices := [e.promptPrice, e.completionPrice, e.requestPrice];
      assert prices[0] in prices && prices[1] in prices && prices[2] in prices;
      assert Weighed(b, p, c) == RequestOf(b, p, c);
      UsableIffProper(e, Weighed(b, p, c));
    }
  }

  /** When a call is admitted, and that nothing else changes the books. */
  lemma AdmissionHappensIff(b: Books, c: Call, o: Outcome, b': Books)
    requires AdmitStep(b, c, o, b')
    ensures !o.Admitted? ==> b' == b
    ensures o == Unlimited <==>
      b.policy.Some? && b.policy.value.incidentLimit.None? && b.policy.value.monthlyLimit.None?
    ensures o.Admitted? <==>
      !o.Unlimited? && Refusal(b, c) == None && forall k :: 0 <= k < |b.rows| ==> b.rows[k].id != c.id
  {
  }

  /** The open row of an admitted call: it holds the whole input and the cap, or their cost, for each
      limit there is. */
  predicate HoldsExposure(row: Reservation, p: Policy, c: Call, e: Endpoint, cap: int) {
    var input := if c.input.Some? && c.input.value < e.maxPrompt then c.input.value else e.maxPrompt;
    && row.id == c.id && row.incident == c.incident && row.period == c.period && row.status == Reserved
    && row.tokens == (if p.incidentLimit.Some? then Some(input + cap) else None)
    && (row.usd.Some? <==> p.monthlyLimit.Some?)
    && (p.monthlyLimit.Some? ==>
          && e.promptPrice.Some? && e.completionPrice.Some? && e.requestPrice.Some?
          && row.usd == Some(Cost(e.promptPrice.value.usd, input) + e.requestPrice.value.usd
                             + Cost(e.completionPrice.value.usd, cap)))
  }

  /** What an admission adds: one such row, at the end. */
  lemma AdmittedRowSays(b: Books, c: Call, o: Outcome, b': Books)
    requires AdmitStep(b, c, o, b') && o.Admitted?
    ensures b.policy.Some? && c.endpoint.Some?
    ensures |b'.rows| == |b.rows| + 1 && b' == b.(rows := b.rows + [b'.rows[|b.rows|]])
    ensures HoldsExposure(b'.rows[|b.rows|], b.policy.value, c, c.endpoint.value, o.cap)
  {
    var p, e, r := b.policy.value, c.endpoint.value, RequestOf(b, b.policy.value, c);
    assert b'.rows[|b.rows|] == ReservationFor(p, c, e, r, o.cap);
  }

  /** Its cap is the largest within every limit. */
  lemma AdmittedCapIsLargest(b: Books, c: Call, o: Outcome, b': Books, n: int)
    requires AdmitStep(b, c, o, b') && o.Admitted?
    ensures b.policy.Some? && c.endpoint.Some? && 1 <= o.cap
    ensures n <= o.cap <==> WithinEveryLimit(c.endpoint.value, Weighed(b, b.policy.value, c), n)
  {
    assert Weighed(b, b.policy.value, c) == RequestOf(b, b.policy.value, c);
    AdmittedCapSays(c.endpoint.value, RequestOf(b, b.policy.value, c), o.cap, n);
  }

  /** What a settlement leaves: the open row of the id becomes settled with these figures, and every
      other case changes nothing. */
  lemma SettlementSays(b: Books, id: string, tokens: int, usd: Option<real>, o: Settlement, b': Books, k: int)
    requires SettleStep(b, id, tokens, usd, o, b')
    requires forall i, j :: 0 <= i < j < |b.rows| ==> b.rows[i].id != b.rows[j].id
    requires 0 <= k < |b.rows| && b.rows[k].id == id
    ensures o ==
      if b.rows[k].status.Settled? then AlreadySettled else if tokens < 0 then Negative else Done
    ensures o != Done ==> b' == b
    ensures o == Done ==>
      var row := b.rows[k];
      b' == b.(rows := b.rows[..k]
        + [Reservation(id, row.incident, row.period, row.tokens, row.usd, Settled(tokens, usd))] + b.rows[k + 1..])
  {
    if o == Done {
      var j :| OpenAt(b, j, id) && b' == b.(rows := SettledRows(b.rows, j, tokens, usd));
      assert j == k;
    } else if o == Negative {
      var j :| OpenAt(b, j, id);
      assert j == k;
    }
  }

  // ------------------------------------------------------------------ runs

  datatype Event = Admission(call: Call, outcome: Outcome)
                 | Settling(id: string, tokens: int, usd: Option<real>, settlement: Settlement)
                 | PolicyChange(policy: Option<Policy>)
                 | IncidentCreated(incident: string)
                 | Audited(bill: Bill)

  predicate BilledIn(bills: seq<Bill>, request: string) {
    exists i :: 0 <= i < |bills| && bills[i].request == request
  }

  ghost predicate Next(b: Books, e: Event, b': Books) {
    match e
    case Admission(call, outcome) => AdmitStep(b, call, outcome, b')
    case Settling(id, tokens, usd, settlement) => SettleStep(b, id, tokens, usd, settlement, b')
    case PolicyChange(policy) => b' == b.(policy := policy)
    case IncidentCreated(incident) => b' == b.(incidents := b.incidents + {incident})
    case Audited(bill) => !BilledIn(b.bills, bill.request) && b' == b.(bills := b.bills + [bill])
  }

  ghost predicate IsRun(bs: seq<Books>, es: seq<Event>) {
    |bs| == |es| + 1 && forall i :: 0 <= i < |es| ==> Next(bs[i], es[i], bs[i + 1])
  }

  /** Every policy in force sets an incident limit of at most `limit`. */
  predicate IncidentLimited(b: Books, limit: int) {
    b.policy.Some? ==> b.policy.value.incidentLimit.Some? && b.policy.value.incidentLimit.value <= limit
  }

  predicate MonthLimited(b: Books, limit: real) {
    b.policy.Some? ==> b.policy.value.monthlyLimit.Some? && b.policy.value.monthlyLimit.value <= limit
  }

  /** The provider bills no more tokens than were reserved. */
  predicate TokensWithinExposure(b: Books, e: Event) {
    e.Settling? ==> forall k :: 0 <= k < |b.rows| && b.rows[k].id == e.id && b.rows[k].tokens.Some? ==>
      e.tokens <= b.rows[k].tokens.value
  }

  /** Every bill is within its reservation's exposure: the settled cost, and, when the reservation is
      settled without a cost, the audited bill, which then falls into the reservation's month. Only
      calls that hold a reservation are billed; a bill audited after such a settlement is none, since
      both read the same consumption record. */
  predicate BillsWithinExposure(b: Books, e: Event) {
    && (e.Settling? ==> forall k :: 0 <= k < |b.rows| && b.rows[k].id == e.id && b.rows[k].usd.Some? ==>
          && Amount(e.usd) <= b.rows[k].usd.value
          && (e.usd.None? ==> forall i :: 0 <= i < |b.bills| && b.bills[i].request == e.id ==>
                b.bills[i].period == b.rows[k].period && b.bills[i].usd <= b.rows[k].usd.value))
    && (e.Audited? ==> e.bill.usd >= 0.0 && (Owned(b.rows, e.bill.request) || e.bill.usd == 0.0))
  }

  ghost predicate WithinIncidentLimit(b: Books, limit: int) {
    && (forall incident, period :: IncidentUsed(b.rows, incident, period) <= limit)
    && (forall k :: 0 <= k < |b.rows| && b.rows[k].status.Reserved? ==> b.rows[k].tokens.Some?)
  }

  /** Ids and requests are unique and bills are not negative. */
  predicate Orderly(b: Books) {
    && (forall j, k :: 0 <= j < k < |b.rows| ==> b.rows[j].id != b.rows[k].id)
    && (forall i, j :: 0 <= i < j < |b.bills| ==> b.bills[i].request != b.bills[j].request)
    && (forall i :: 0 <= i < |b.bills| ==> b.bills[i].usd >= 0.0)
    && (forall k :: 0 <= k < |b.rows| && b.rows[k].status.Reserved? ==> b.rows[k].usd.Some?)
  }

  ghost predicate WithinMonthLimit(b: Books, limit: real) {
    Orderly(b) && forall period :: MonthTotal(b, period) <= limit
  }

  lemma StepKeepsIncidentLimit(b: Books, e: Event, b': Books, limit: int)
    requires Next(b, e, b') && IncidentLimited(b, limit) && TokensWithinExposure(b, e)
    requires WithinIncidentLimit(b, limit)
    ensures WithinIncidentLimit(b', limit)
  {
    if e.Admission? && e.outcome.Admitted? {
      var row := b'.rows[|b.rows|];
      forall incident, period
        ensures IncidentUsed(b'.rows, incident, period) <= limit
      {
        AppendedSums(b.rows, row, incident, period);
      }
    } else if e.Settling? && e.settlement.Done? {
      var k :| OpenAt(b, k, e.id) && b' == b.(rows := SettledRows(b.rows, k, e.tokens, e.usd));
      forall incident, period
        ensures IncidentUsed(b'.rows, incident, period) <= limit
      {
        ReplacedSums(b.rows, k, b'.rows[k], incident, period);
      }
    }
  }

  // ------------------------------------------------------------------ audited bills

  lemma {:induction false} LegacyDependsOnOwners(bills: seq<Bill>, rows: seq<Reservation>, rows': seq<Reservation>,
      period: int)
    requires forall i :: 0 <= i < |bills| ==> bills[i].usd >= 0.0
    requires forall request :: Owned(rows, request) ==> Owned(rows', request)
    ensures Legacy(bills, rows', period) <= Legacy(bills, rows, period)
    ensures (forall request :: Owned(rows, request) <==> Owned(rows', request)) ==>
      Legacy(bills, rows', period) == Legacy(bills, rows, period)
  {
    if bills == [] {
    } else {
      LegacyDependsOnOwners(bills[1..], rows, rows', period);
    }
  }

  /** What was billed for one request in one month. */
  function BilledFor(bills: seq<Bill>, request: string, period: int): real {
    if bills == [] then 0.0
    else
      (if bills[0].request == request && bills[0].period == period then bills[0].usd else 0.0)
      + BilledFor(bills[1..], request, period)
  }

  /** A reservation that stops accounting for its request hands over exactly that request's bills. */
  lemma {:induction false} DisownedBillsCount(bills: seq<Bill>, rows: seq<Reservation>, rows': seq<Reservation>,
      id: string, period: int)
    requires Owned(rows, id) && !Owned(rows', id)
    requires forall request :: request != id ==> (Owned(rows, request) <==> Owned(rows', request))
    ensures Legacy(bills, rows', period) == Legacy(bills, rows, period) + BilledFor(bills, id, period)
  {
    if bills == [] {
    } else {
      DisownedBillsCount(bills[1..], rows, rows', id, period);
    }
  }

  lemma {:induction false} BilledOnce(bills: seq<Bill>, id: string, month: int, exposure: real, period: int)
    requires forall i, j :: 0 <= i < j < |bills| ==> bills[i].request != bills[j].request
    requires forall i :: 0 <= i < |bills| && bills[i].request == id ==>
      bills[i].period == month && bills[i].usd <= exposure
    requires exposure >= 0.0
    ensures BilledFor(bills, id, period) <= if period == month then exposure else 0.0
    ensures (forall i :: 0 <= i < |bills| ==> bills[i].request != id) ==> BilledFor(bills, id, period) == 0.0
  {
    if bills == [] {
    } else {
      BilledOnce(bills[1..], id, month, exposure, period);
    }
  }

  lemma SettledOwners(b: Books, k: int, id: string, tokens: int, usd: Option<real>)
    requires Orderly(b) && OpenAt(b, k, id)
    ensures var rows' := SettledRows(b.rows, k, tokens, usd);
      && (forall request :: request != id ==> (Owned(b.rows, request) <==> Owned(rows', request)))
      && Owned(b.rows, id) && (Owned(rows', id) <==> usd.Some?)
  {
    var rows' := SettledRows(b.rows, k, tokens, usd);
    assert OwnsSpend(b.rows[k]);
    forall request | request != id
      ensures Owned(b.rows, request) <==> Owned(rows', request)
    {
      if j :| 0 <= j < |b.rows| && b.rows[j].id == request && OwnsSpend(b.rows[j]) {
        assert rows'[j] == b.rows[j];
      }
      if j :| 0 <= j < |rows'| && rows'[j].id == request && OwnsSpend(rows'[j]) {
        assert rows'[j] == b.rows[j];
      }
    }
    assert rows'[k].id == id && (OwnsSpend(rows'[k]) <==> usd.Some?);
  }

  /** Settling without a cost moves a request's spend from the reservation's month to the months its
      bills fall into, and changes nothing else. */
  lemma NullSettlementMoves(b: Books, k: int, id: string, tokens: int, period: int)
    requires Orderly(b) && OpenAt(b, k, id)
    ensures MonthTotal(b.(rows := SettledRows(b.rows, k, tokens, None)), period) ==
      MonthTotal(b, period) - (if period == b.rows[k].period then Amount(b.rows[k].usd) else 0.0)
      + BilledFor(b.bills, id, period)
  {
    var rows' := SettledRows(b.rows, k, tokens, None);
    SettledOwners(b, k, id, tokens, None);
    DisownedBillsCount(b.bills, b.rows, rows', id, period);
    ReplacedSums(b.rows, k, rows'[k], "", period);
  }

  lemma AdmissionKeepsMonthLimit(b: Books, e: Event, b': Books, limit: real, period: int)
    requires Next(b, e, b') && e.Admission? && e.outcome.Admitted? && MonthLimited(b, limit)
    requires WithinMonthLimit(b, limit)
    ensures MonthTotal(b', period) <= limit
  {
    var row := b'.rows[|b.rows|];
    AppendedSums(b.rows, row, "", period);
    assert forall request :: Owned(b.rows, request) ==> Owned(b'.rows, request) by {
      assert forall k :: 0 <= k < |b.rows| ==> b'.rows[k] == b.rows[k];
    }
    LegacyDependsOnOwners(b.bills, b.rows, b'.rows, period);
    var p, r := b.policy.value, RequestOf(b, b.policy.value, e.call);
    assert b'.rows == b.rows + [row] && row == ReservationFor(p, e.call, e.call.endpoint.value, r, e.outcome.cap);
    assert row.usd == Some(Exposure(e.call.endpoint.value, r, e.outcome.cap));
    assert row.usd.value <= p.monthlyLimit.value - MonthTotal(b, e.call.period);
    assert MonthTotal(b, period) <= limit;
    assert MonthUsed([row], period) == if period == e.call.period then row.usd.value else 0.0;
  }

  lemma SettlementKeepsMonthLimit(b: Books, k: int, e: Event, limit: real, period: int)
    requires e.Settling? && OpenAt(b, k, e.id) && BillsWithinExposure(b, e) && WithinMonthLimit(b, limit)
    ensures MonthTotal(b.(rows := SettledRows(b.rows, k, e.tokens, e.usd)), period) <= limit
  {
    var rows' := SettledRows(b.rows, k, e.tokens, e.usd);
    assert MonthTotal(b, period) <= limit;
    if e.usd.None? {
      NullSettlementMoves(b, k, e.id, e.tokens, period);
      BilledOnce(b.bills, e.id, b.rows[k].period, b.rows[k].usd.value, period);
    } else {
      SettledOwners(b, k, e.id, e.tokens, e.usd);
      assert forall request :: Owned(b.rows, request) <==> Owned(rows', request);
      LegacyDependsOnOwners(b.bills, b.rows, rows', period);
      ReplacedSums(b.rows, k, rows'[k], "", period);
      assert UsdOf(rows'[k]) <= UsdOf(b.rows[k]);
      assert MonthUsed([rows'[k]], period) <= MonthUsed([b.rows[k]], period);
    }
  }

  /** A bill that no reservation accounts for, as after a settlement without a cost, stays within the
      limit if and only if the month it falls into has room for it. */
  lemma LateBillStaysWithinIff(b: Books, bill: Bill, limit: real)
    requires WithinMonthLimit(b, limit) && bill.usd >= 0.0
    requires !Owned(b.rows, bill.request) && !BilledIn(b.bills, bill.request)
    ensures WithinMonthLimit(b.(bills := b.bills + [bill]), limit) <==> MonthTotal(b, bill.period) + bill.usd <= limit
  {
    var b' := b.(bills := b.bills + [bill]);
    assert Orderly(b');
    forall period
      ensures MonthTotal(b', period) == MonthTotal(b, period) + (if period == bill.period then bill.usd else 0.0)
    {
      AppendedBill(b.bills, bill, b.rows, period);
      assert Legacy([bill], b.rows, period) == if period == bill.period then bill.usd else 0.0;
    }
    assert MonthTotal(b', bill.period) == MonthTotal(b, bill.period) + bill.usd;
  }

  /** Every event keeps the month's reserved, settled and audited spend within the limit. */
  lemma StepKeepsMonthLimit(b: Books, e: Event, b': Books, limit: real)
    requires Next(b, e, b') && MonthLimited(b, limit) && BillsWithinExposure(b, e)
    requires WithinMonthLimit(b, limit)
    ensures WithinMonthLimit(b', limit)
  {
    if e.Admission? && e.outcome.Admitted? {
      forall period
        ensures MonthTotal(b', period) <= limit
      {
        AdmissionKeepsMonthLimit(b, e, b', limit, period);
      }
    } else if e.Settling? && e.settlement.Done? {
      var k :| OpenAt(b, k, e.id) && b' == b.(rows := SettledRows(b.rows, k, e.tokens, e.usd));
      forall period
        ensures MonthTotal(b', period) <= limit
      {
        SettlementKeepsMonthLimit(b, k, e, limit, period);
      }
    } else if e.Audited? {
      forall period
        ensures MonthTotal(b', period) <= limit
      {
        assert MonthTotal(b, period) <= limit;
        AppendedBill(b.bills, e.bill, b.rows, period);
        assert Legacy([e.bill], b.rows, period) == 0.0;
      }
    } else {
      assert forall period :: MonthTotal(b', period) == MonthTotal(b, period);
    }
  }

  // ------------------------------------------------------------------ whole runs

  /** Over any run of admissions, settlements and policy changes whose policies keep the incident
      limit at or under `limit`, no incident's reserved-or-settled tokens of a month ever exceed it. */
  lemma {:induction false} IncidentLimitHoldsOverRuns(bs: seq<Books>, es: seq<Event>, limit: int)
    requires IsRun(bs, es)
    requires forall i :: 0 <= i < |es| ==> IncidentLimited(bs[i], limit) && TokensWithinExposure(bs[i], es[i])
    requires WithinIncidentLimit(bs[0], limit)
    ensures WithinIncidentLimit(bs[|es|], limit)
    decreases |es|
  {
    if |es| == 0 {
    } else {
      var n := |es| - 1;
      IncidentLimitHoldsOverRuns(bs[..|es|], es[..n], limit);
      StepKeepsIncidentLimit(bs[n], es[n], bs[n + 1], limit);
    }
  }

  /** The same for the month's spend across all incidents, audited bills outside the reservations
      included. */
  lemma {:induction false} MonthLimitHoldsOverRuns(bs: seq<Books>, es: seq<Event>, limit: real)
    requires IsRun(bs, es)
    requires forall i :: 0 <= i < |es| ==> MonthLimited(bs[i], limit) && BillsWithinExposure(bs[i], es[i])
    requires WithinMonthLimit(bs[0], limit)
    ensures WithinMonthLimit(bs[|es|], limit)
    decreases |es|
  {
    if |es| == 0 {
    } else {
      var n := |es| - 1;
      MonthLimitHoldsOverRuns(bs[..|es|], es[..n], limit);
      StepKeepsMonthLimit(bs[n], es[n], bs[n + 1], limit);
    }
  }

  // ------------------------------------------------------------------ the reason of a refusal

  /** The call is refused because no output token is affordable, and for no earlier reason. */
  predicate DeniedOnAffordability(b: Books, c: Call) {
    && LimitActive(b) && c.endpoint.Some?
    && (b.policy.value.monthlyLimit.Some? ==> PricesKnown(c.endpoint.value))
    && !Affords(c.endpoint.value, RequestOf(b, b.policy.value, c))
  }

  predicate Affords(e: Endpoint, r: Request) {
    Usable(e, r) && Fits(e, r, 1)
  }

  /** The limit the refusal names is not the one that is short: without the other limit, the call
      would be affordable. */
  predicate NamesTheWrongLimit(b: Books, c: Call)
    requires DeniedOnAffordability(b, c)
  {
    var e, r := c.endpoint.value, RequestOf(b, b.policy.value, c);
    || (Refusal(b, c) == Some(IncidentLimitExceeded) && Affords(e, r.(monthly := None)))
    || (Refusal(b, c) == Some(MonthlyLimitExceeded) && Affords(e, r.(incident := None)))
  }

  /** For all books and calls: under both limits the refusal names the incident if and only if the
      month has money left, and the month otherwise. */
  lemma RefusalNamesTheIncidentIff(b: Books, c: Call)
    requires DeniedOnAffordability(b, c)
    requires b.policy.value.incidentLimit.Some? && b.policy.value.monthlyLimit.Some? && c.incident.Some?
    ensures Refusal(b, c) == Some(IncidentLimitExceeded) <==>
      MonthTotal(b, c.period) < b.policy.value.monthlyLimit.value
    ensures Refusal(b, c) == Some(MonthlyLimitExceeded) <==>
      MonthTotal(b, c.period) >= b.policy.value.monthlyLimit.value
  {
  }

  /** The endpoint has room for the input and one output token. */
  predicate EndpointHasRoom(e: Endpoint, r: Request) {
    && 0 < e.maxPrompt <= MAX_TOKENS && 0 < e.maxCompletion <= MAX_TOKENS
    && (r.input.Some? ==> 0 < r.input.value <= MAX_TOKENS)
    && (e.context.Some? ==> InputBound(e, r) < e.context.value)
  }

  predicate CostsNothing(e: Endpoint, r: Request) {
    && ValidPrice(e.promptPrice) && ValidPrice(e.completionPrice) && ValidPrice(e.requestPrice) && Bounded(r.written)
    && Exposure(e, r, 1) <= 0.0
  }

  /** For all books and calls: the refusal names the wrong limit if and only if both limits bound the
      call, the endpoint has room, and either the month has money left and the incident has room, or
      the month is spent to the cent, the incident has no room, and the call costs nothing. */
  lemma RefusalNamesTheWrongLimitIff(b: Books, c: Call)
    requires DeniedOnAffordability(b, c)
    ensures NamesTheWrongLimit(b, c) <==>
      var e, r := c.endpoint.value, RequestOf(b, b.policy.value, c);
      && r.incident.Some? && r.monthly.Some? && EndpointHasRoom(e, r)
      && var room := 0 <= r.incident.value <= MAX_TOKENS && InputBound(e, r) < r.incident.value;
         (r.monthly.value > 0.0 && room) || (r.monthly.value == 0.0 && !room && CostsNothing(e, r))
  {
    var e, r := c.endpoint.value, RequestOf(b, b.policy.value, c);
    assert r.incident.None? ==> r.(incident := None) == r;
    assert r.monthly.None? ==> r.(monthly := None) == r;
  }

  const SHORT := Written(1, 0)

  /** An endpoint that charges so much a token. */
  function EndpointAt(usd: real): Endpoint {
    Endpoint(1000, 10, Some(1000), Some(Rate(usd, SHORT)), Some(Rate(usd, SHORT)), Some(Rate(0.0, SHORT)))
  }

  /** Both ways of naming the wrong limit occur. */
  lemma EitherLimitCanBeNamedWrongly()
    ensures var dear := EndpointAt(1.0);
      var b := Books(Some(Policy(1, Some(100000), Some(5.0))), {"i"}, [], []);
      var c := Call("r", Some("i"), 0, Some(dear), Some(70), SHORT);
      DeniedOnAffordability(b, c) && NamesTheWrongLimit(b, c) && Refusal(b, c) == Some(IncidentLimitExceeded)
    ensures var free := EndpointAt(0.0);
      var b := Books(Some(Policy(1, Some(50), Some(0.0))), {"i"}, [], []);
      var c := Call("r", Some("i"), 0, Some(free), Some(70), SHORT);
      DeniedOnAffordability(b, c) && NamesTheWrongLimit(b, c) && Refusal(b, c) == Some(MonthlyLimitExceeded)
  {
  }
}
