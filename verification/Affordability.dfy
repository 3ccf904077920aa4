/** The output cap a call may be admitted with: the endpoint listing and the affordability
calculation of the gateway (`src/sre_agent/gateway/endpoint_catalog.py`,
`src/sre_agent/gateway/consumption_affordability.py`). Decimal arithmetic, which the source keeps
exact, is arithmetic on `real`. */
module Affordability {
  import opened Options

  const MAX_TOKENS := 9_223_372_036_854_775_807
  const MESSAGE_OVERHEAD := 64

  /** A listed endpoint, with the limits the listing leaves out already filled in. */
  datatype Endpoint = Endpoint(
    maxPrompt: int,
    maxCompletion: int,
    context: Option<int>,
    promptPrice: Option<Rate>,
    completionPrice: Option<Rate>,
    requestPrice: Option<Rate>)

  /** The digits and the exponent a decimal number is written with. */
  datatype Written = Written(digits: nat, exponent: int)

  /** A listed price. */
  datatype Rate = Rate(usd: real, written: Written)

  const MAX_PRICE_DIGITS := 128
  const MAX_PRICE_EXPONENT := 128

  function Min(a: int, b: int): int {
    if a < b then a else b
  }

  function Max(a: int, b: int): int {
    if a < b then b else a
  }

  function Price(p: Option<Rate>): real {
    if p.Some? then p.value.usd else 0.0
  }

  function Cost(rate: real, tokens: int): real {
    rate * tokens as real
  }

  /** A token more costs the rate more. */
  lemma CostAddsUp(rate: real, tokens: int)
    ensures Cost(rate, 0) == 0.0 && Cost(rate, tokens + 1) == Cost(rate, tokens) + rate
  {
  }

  lemma ProductIsNonNegative(a: real, b: real)
    requires a >= 0.0 && b >= 0.0
    ensures a * b >= 0.0
  {
  }

  lemma CostIsMonotone(rate: real, m: int, n: int)
    requires rate >= 0.0 && m <= n
    ensures Cost(rate, m) <= Cost(rate, n)
  {
    var more := n as real - m as real;
    ProductIsNonNegative(rate, more);
    assert rate * n as real == rate * m as real + rate * more;
  }

  lemma CostGrowsWithRate(low: real, high: real, n: int)
    requires low <= high && n >= 0
    ensures Cost(low, n) <= Cost(high, n)
  {
    ProductIsNonNegative(high - low, n as real);
    assert high * n as real == low * n as real + (high - low) * n as real;
  }

  // ------------------------------------------------------------------ several endpoints

  function HigherPrice(a: Option<Rate>, b: Option<Rate>): Option<Rate> {
    if a.None? || b.None? then None else if a.value.usd < b.value.usd then b else a
  }

  function LowerWindow(a: Option<int>, b: Option<int>): Option<int> {
    if a.None? || b.None? then None else Some(Min(a.value, b.value))
  }

  function Worse(a: Endpoint, b: Endpoint): Endpoint {
    Endpoint(
      Max(a.maxPrompt, b.maxPrompt),
      Min(a.maxCompletion, b.maxCompletion),
      LowerWindow(a.context, b.context),
      HigherPrice(a.promptPrice, b.promptPrice),
      HigherPrice(a.completionPrice, b.completionPrice),
      HigherPrice(a.requestPrice, b.requestPrice))
  }

  /** `_most_conservative`, on the endpoints of one provider. */
  function MostConservative(es: seq<Endpoint>): Endpoint
    requires |es| > 0
  {
    if |es| == 1 then es[0] else Worse(es[0], MostConservative(es[1..]))
  }

  predicate PriceCovers(worst: Option<Rate>, own: Option<Rate>) {
    worst.Some? ==> own.Some? && own.value.usd <= worst.value.usd
  }

  /** Whatever the worst case allows, this endpoint allows, and charges no more. */
  predicate Covers(worst: Endpoint, own: Endpoint) {
    && own.maxPrompt <= worst.maxPrompt
    && worst.maxCompletion <= own.maxCompletion
    && (worst.context.Some? ==> own.context.Some? && worst.context.value <= own.context.value)
    && PriceCovers(worst.promptPrice, own.promptPrice)
    && PriceCovers(worst.completionPrice, own.completionPrice)
    && PriceCovers(worst.requestPrice, own.requestPrice)
  }

  /** The combination covers every endpoint, its window and caps are attained, and it has no window
      only when some endpoint states none. */
  lemma {:induction false} WorstCaseCoversEveryEndpoint(es: seq<Endpoint>)
    requires |es| > 0
    ensures forall e :: e in es ==> Covers(MostConservative(es), e)
    ensures exists e :: e in es && e.context == MostConservative(es).context
    ensures exists e :: e in es && e.maxPrompt == MostConservative(es).maxPrompt
    ensures exists e :: e in es && e.maxCompletion == MostConservative(es).maxCompletion
  {
    assert es[0] in es;
    if |es| > 1 {
      var rest := es[1..];
      WorstCaseCoversEveryEndpoint(rest);
      assert forall e :: e in rest ==> e in es;
      forall e | e in es
        ensures Covers(MostConservative(es), e)
      {
        if e != es[0] {
          assert e in rest;
        }
      }
    }
  }

  // ------------------------------------------------------------------ the cap

  /** `_affordable_output_tokens`: the binary search finds the largest affordable count. */
  method AffordableOutputTokens(available: real, price: real, ceiling: int) returns (low: int)
    requires available >= 0.0 && price >= 0.0 && ceiling >= 0
    ensures 0 <= low <= ceiling && Cost(price, low) <= available
    ensures forall n :: low < n <= ceiling ==> Cost(price, n) > available
  {
    low := 0;
    var high := ceiling;
    while low < high
      invariant 0 <= low <= high <= ceiling
      invariant Cost(price, low) <= available
      invariant forall n :: high < n <= ceiling ==> Cost(price, n) > available
    {
      var candidate := (low + high + 1) / 2;
      if Cost(price, candidate) <= available {
        low := candidate;
      } else {
        forall n | candidate <= n <= ceiling
          ensures Cost(price, n) > available
        {
          CostIsMonotone(price, candidate, n);
        }
        high := candidate - 1;
      }
    }
  }

  /** What a call asks for: the active balances, how the monthly one is written, and the bound on its
      own input. */
  datatype Request = Request(incident: Option<int>, monthly: Option<real>, written: Written, input: Option<int>)

  function InputBound(e: Endpoint, r: Request): int {
    if r.input.None? then e.maxPrompt else Min(r.input.value, e.maxPrompt)
  }

  /** `_bounded_decimal`. */
  predicate Bounded(w: Written) {
    w.digits <= MAX_PRICE_DIGITS && -MAX_PRICE_EXPONENT <= w.exponent <= MAX_PRICE_EXPONENT
  }

  /** `_required_price`: known, not negative, and written within bounds. */
  predicate ValidPrice(p: Option<Rate>) {
    p.Some? && p.value.usd >= 0.0 && Bounded(p.value.written)
  }

  /** The values the calculation accepts at all. */
  predicate Usable(e: Endpoint, r: Request) {
    && 0 < e.maxPrompt <= MAX_TOKENS && 0 < e.maxCompletion <= MAX_TOKENS
    && (r.incident.Some? ==> 0 <= r.incident.value <= MAX_TOKENS)
    && (r.monthly.Some? ==> r.monthly.value >= 0.0 && Bounded(r.written))
    && (r.monthly.Some? ==> ValidPrice(e.promptPrice) && ValidPrice(e.completionPrice) && ValidPrice(e.requestPrice))
    && (r.input.Some? ==> 0 < r.input.value <= MAX_TOKENS)
  }

  /** The dearest the call can get with this input bound and this many output tokens. */
  function Exposure(e: Endpoint, r: Request, output: int): real {
    Cost(Price(e.promptPrice), InputBound(e, r)) + Price(e.requestPrice) + Cost(Price(e.completionPrice), output)
  }

  /** Every active limit leaves room for the whole input and `output` tokens. */
  predicate Fits(e: Endpoint, r: Request, output: int) {
    && output <= e.maxCompletion
    && (e.context.Some? ==> InputBound(e, r) + output <= e.context.value)
    && (r.incident.Some? ==> InputBound(e, r) + output <= r.incident.value)
    && (r.monthly.Some? ==> Exposure(e, r, output) <= r.monthly.value)
  }

  /** The call is admitted with this cap: a positive one, and the largest that fits. */
  predicate Admits(e: Endpoint, r: Request, cap: int) {
    Usable(e, r) && 1 <= cap && Fits(e, r, cap) && !Fits(e, r, cap + 1)
  }

  lemma FewerTokensFit(e: Endpoint, r: Request, m: int, n: int)
    requires Usable(e, r) && m <= n && Fits(e, r, n)
    ensures Fits(e, r, m)
  {
    if r.monthly.Some? {
      CostIsMonotone(Price(e.completionPrice), m, n);
    }
  }

  /** One cap at most is admitted, and one is exactly when a single output token fits. */
  lemma AdmittedCapIsUnique(e: Endpoint, r: Request, cap: int, other: int)
    requires Admits(e, r, cap)
    ensures Fits(e, r, 1)
    ensures Admits(e, r, other) ==> other == cap
  {
    FewerTokensFit(e, r, 1, cap);
    if Admits(e, r, other) {
      if cap < other {
        FewerTokensFit(e, r, cap + 1, other);
        assert false;
      } else if other < cap {
        FewerTokensFit(e, r, other + 1, cap);
        assert false;
      }
    }
  }

  lemma {:induction false} LargestCapExists(e: Endpoint, r: Request, n: int)
    requires Usable(e, r) && 1 <= n && Fits(e, r, n)
    ensures exists cap :: Admits(e, r, cap)
    decreases e.maxCompletion - n
  {
    if Fits(e, r, n + 1) {
      LargestCapExists(e, r, n + 1);
    } else {
      assert Admits(e, r, n);
    }
  }

  /** The balances and the endpoint, in plain figures: so many output tokens beside the whole input
      are within every limit. */
  predicate WithinEveryLimit(e: Endpoint, r: Request, n: int) {
    var input := if r.input.Some? && r.input.value < e.maxPrompt then r.input.value else e.maxPrompt;
    && n <= e.maxCompletion
    && (e.context.Some? ==> input + n <= e.context.value)
    && (r.incident.Some? ==> input + n <= r.incident.value)
    && (r.monthly.Some? && e.promptPrice.Some? && e.completionPrice.Some? && e.requestPrice.Some? ==>
          Cost(e.promptPrice.value.usd, input) + e.requestPrice.value.usd + Cost(e.completionPrice.value.usd, n)
          <= r.monthly.value)
  }

  /** The figures are ones the calculation takes: counts from 1 to 2^63 - 1, balances that are not
      negative, and under a monthly limit known prices, all written in at most 128 digits. */
  predicate Proper(e: Endpoint, r: Request) {
    && 1 <= e.maxPrompt < 0x8000_0000_0000_0000 && 1 <= e.maxCompletion < 0x8000_0000_0000_0000
    && (r.input.Some? ==> 1 <= r.input.value < 0x8000_0000_0000_0000)
    && (r.incident.Some? ==> 0 <= r.incident.value < 0x8000_0000_0000_0000)
    && (r.monthly.Some? ==>
          && 0.0 <= r.monthly.value && r.written.digits <= 128 && -128 <= r.written.exponent <= 128
          && forall price :: price in [e.promptPrice, e.completionPrice, e.requestPrice] ==>
               && price.Some? && 0.0 <= price.value.usd
               && price.value.written.digits <= 128 && -128 <= price.value.written.exponent <= 128)
  }

  lemma UsableIffProper(e: Endpoint, r: Request)
    ensures Usable(e, r) <==> Proper(e, r)
  {
    var prices := [e.promptPrice, e.completionPrice, e.requestPrice];
    assert prices[0] in prices && prices[1] in prices && prices[2] in prices;
  }

  lemma FitsIffWithinEveryLimit(e: Endpoint, r: Request, n: int)
    requires Usable(e, r)
    ensures Fits(e, r, n) <==> WithinEveryLimit(e, r, n)
  {
  }

  /** An admitted call's cap divides the counts: exactly those up to it are within every limit. */
  lemma AdmittedCapSays(e: Endpoint, r: Request, cap: int, n: int)
    requires Admits(e, r, cap)
    ensures Proper(e, r) && 1 <= cap
    ensures n <= cap <==> WithinEveryLimit(e, r, n)
  {
    UsableIffProper(e, r);
    FitsIffWithinEveryLimit(e, r, n);
    if n <= cap {
      FewerTokensFit(e, r, n, cap);
    } else if Fits(e, r, n) {
      FewerTokensFit(e, r, cap + 1, n);
    }
  }

  /** And a call is denied exactly when a figure is improper or one output token is over a limit. */
  lemma DeniedSays(e: Endpoint, r: Request)
    ensures (exists cap :: Admits(e, r, cap)) <==> Proper(e, r) && WithinEveryLimit(e, r, 1)
  {
    UsableIffProper(e, r);
    if Usable(e, r) && Fits(e, r, 1) {
      LargestCapExists(e, r, 1);
    }
    if cap :| Admits(e, r, cap) {
      AdmittedCapSays(e, r, cap, 1);
    }
  }

  /** `calculate_affordability`: the largest positive cap every limit leaves room for, and a denial
      exactly when the values are unusable or not even one output token fits. */
  method CalculateAffordability(e: Endpoint, r: Request) returns (cap: Option<int>)
    ensures cap.None? <==> !Usable(e, r) || !Fits(e, r, 1)
    ensures cap.Some? ==> Admits(e, r, cap.value)
  {
    if !Usable(e, r) {
      return None;
    }
    var bound := InputBound(e, r);
    var ceiling := e.maxCompletion;
    if e.context.Some? {
      ceiling := Min(ceiling, e.context.value - bound);
    }
    if r.incident.Some? {
      ceiling := Min(ceiling, r.incident.value - bound);
    }
    if r.monthly.Some? {
      var after := r.monthly.value - (Cost(e.promptPrice.value.usd, bound) + e.requestPrice.value.usd);
      if after < 0.0 {
        CostIsMonotone(e.completionPrice.value.usd, 0, 1);
        return None;
      }
      if e.completionPrice.value.usd > 0.0 {
        var affordable := AffordableOutputTokens(after, e.completionPrice.value.usd, e.maxCompletion);
        assert Cost(e.completionPrice.value.usd, affordable) <= after;
        assert affordable < e.maxCompletion ==> Cost(e.completionPrice.value.usd, affordable + 1) > after;
        ghost var unpriced := ceiling;
        ceiling := Min(ceiling, affordable);
        CostIsMonotone(e.completionPrice.value.usd, ceiling, affordable);
        if affordable < unpriced && affordable == 0 {
          assert Exposure(e, r, 1) > r.monthly.value;
        }
      } else {
        assert Cost(e.completionPrice.value.usd, ceiling) == 0.0 && Cost(e.completionPrice.value.usd, 1) == 0.0;
      }
    }
    if ceiling <= 0 {
      return None;
    }
    FewerTokensFit(e, r, 1, ceiling);
    cap := Some(ceiling);
  }

  // ------------------------------------------------------------------ the provider's view

  /** The provider's strict test of one endpoint: prompts count one token a byte. */
  predicate AcceptedBy(e: Endpoint, bytes: nat, cap: int) {
    cap <= e.maxCompletion && (e.context.Some? ==> bytes + cap <= e.context.value)
  }

  predicate AcceptedByAll(es: seq<Endpoint>, bytes: nat, cap: int) {
    forall e :: e in es ==> AcceptedBy(e, bytes, cap)
  }

  function TextRequest(bytes: nat, incident: Option<int>, monthly: Option<real>, written: Written): Request {
    Request(incident, monthly, written, Some(bytes + MESSAGE_OVERHEAD))
  }

  /** The most output the endpoints leave for a text of so many bytes, whatever the balances. */
  function Offer(es: seq<Endpoint>, bytes: nat): int
    requires |es| > 0
  {
    var worst := MostConservative(es);
    var bound := Min(bytes + MESSAGE_OVERHEAD, worst.maxPrompt);
    if worst.context.Some? then Min(worst.maxCompletion, worst.context.value - bound) else worst.maxCompletion
  }

  /** No call admitted for this text is rejected by an endpoint. */
  ghost predicate NoAdmittedCallIsRejected(es: seq<Endpoint>, bytes: nat)
    requires |es| > 0
  {
    forall incident, monthly, written, cap ::
      Admits(MostConservative(es), TextRequest(bytes, incident, monthly, written), cap) ==>
      AcceptedByAll(es, bytes, cap)
  }

  predicate Listed(e: Endpoint) {
    && 0 < e.maxPrompt <= MAX_TOKENS && 0 < e.maxCompletion <= MAX_TOKENS
    && (e.context.Some? ==> 0 < e.context.value <= MAX_TOKENS)
  }

  /** Admission and the provider agree for every balance exactly when there is nothing to offer or
      every known window holds the text with the whole offer. */
  lemma AdmittedCallsFitIff(es: seq<Endpoint>, bytes: nat)
    requires |es| > 0 && bytes + MESSAGE_OVERHEAD <= MAX_TOKENS
    requires forall e :: e in es ==> Listed(e)
    ensures NoAdmittedCallIsRejected(es, bytes) <==>
      (Offer(es, bytes) <= 0 || forall e :: e in es && e.context.Some? ==> bytes + Offer(es, bytes) <= e.context.value)
  {
    WorstCaseCoversEveryEndpoint(es);
    var worst := MostConservative(es);
    var offer := Offer(es, bytes);
    if offer <= 0 || forall e :: e in es && e.context.Some? ==> bytes + offer <= e.context.value {
      forall incident, monthly, written, cap | Admits(worst, TextRequest(bytes, incident, monthly, written), cap)
        ensures AcceptedByAll(es, bytes, cap)
      {
        assert cap <= offer;
      }
    } else {
      var r := TextRequest(bytes, None, None, Written(1, 0));
      assert Admits(worst, r, offer);
      assert !AcceptedByAll(es, bytes, offer);
    }
  }

  /** With every window listed and no prompt capacity below its window (an endpoint that states none
      has exactly its window), no admitted call is ever rejected. */
  lemma WindowedEndpointsAcceptAdmittedCalls(es: seq<Endpoint>, bytes: nat)
    requires |es| > 0 && bytes + MESSAGE_OVERHEAD <= MAX_TOKENS
    requires forall e :: e in es ==> Listed(e) && e.context.Some? && e.maxPrompt >= e.context.value
    ensures NoAdmittedCallIsRejected(es, bytes)
  {
    WorstCaseCoversEveryEndpoint(es);
    AdmittedCallsFitIff(es, bytes);
  }

  /** A listed prompt capacity below the text's size, or one endpoint without a window beside a
      small one, does let a call through that an endpoint rejects. */
  lemma AdmittedCallsCanBeRejected()
    ensures !NoAdmittedCallIsRejected([Endpoint(100, 50, Some(1000), None, None, None)], 990)
    ensures !NoAdmittedCallIsRejected(
      [Endpoint(5000, 500, None, None, None, None), Endpoint(1000, 1000, Some(1000), None, None, None)], 600)
  {
    var capped := [Endpoint(100, 50, Some(1000), None, None, None)];
    assert capped[0] in capped;
    AdmittedCallsFitIff(capped, 990);
    var mixed := [Endpoint(5000, 500, None, None, None, None), Endpoint(1000, 1000, Some(1000), None, None, None)];
    assert mixed[1] in mixed && mixed[1..] == [mixed[1]];
    assert MostConservative(mixed) == Worse(mixed[0], mixed[1]);
    AdmittedCallsFitIff(mixed, 600);
  }

  /** When the endpoints leave room, a call under an incident limit alone is refused exactly when
      the balance is at most the input bound. */
  lemma RefusedExactlyAtTheInputBound(es: seq<Endpoint>, bytes: nat, balance: int, written: Written)
    requires |es| > 0 && Offer(es, bytes) >= 1
    requires Usable(MostConservative(es), TextRequest(bytes, Some(balance), None, written))
    ensures var worst, r := MostConservative(es), TextRequest(bytes, Some(balance), None, written);
      && ((forall cap :: !Admits(worst, r, cap)) <==> balance <= InputBound(worst, r))
      && (forall cap :: Admits(worst, r, cap) ==> cap == Min(Offer(es, bytes), balance - InputBound(worst, r)))
  {
    var worst, r := MostConservative(es), TextRequest(bytes, Some(balance), None, written);
    var cap := Min(Offer(es, bytes), balance - InputBound(worst, r));
    if cap >= 1 {
      assert Admits(worst, r, cap);
    }
  }

  /** Whichever endpoint serves the call, tokens within the bound and the cap cost no more than the
      exposure reserved for it. */
  lemma BillStaysWithinExposure(es: seq<Endpoint>, e: Endpoint, r: Request, cap: int, input: nat, output: nat)
    requires e in es && r.monthly.Some? && Admits(MostConservative(es), r, cap)
    requires input <= InputBound(MostConservative(es), r) && output <= cap
    ensures Cost(Price(e.promptPrice), input) + Price(e.requestPrice) + Cost(Price(e.completionPrice), output)
      <= Exposure(MostConservative(es), r, cap) <= r.monthly.value
  {
    WorstCaseCoversEveryEndpoint(es);
    var worst := MostConservative(es);
    CostGrowsWithRate(Price(e.promptPrice), Price(worst.promptPrice), input);
    CostIsMonotone(Price(worst.promptPrice), input, InputBound(worst, r));
    CostGrowsWithRate(Price(e.completionPrice), Price(worst.completionPrice), output);
    CostIsMonotone(Price(worst.completionPrice), output, cap);
  }
}
