/**
 * `POST /api/subscriptions/create-checkout` of
 * app/api/subscriptions/create-checkout/route.ts: the plan check, the
 * customer choice and the checkout-session request the route sends to
 * Stripe. The Stripe calls themselves are out of the model: a customer
 * created on the way is an input, and the session request is the result.
 */
module CreateCheckout {
  import opened Wrappers
  import opened Json
  import opened Domain
  import opened Store
  import StripePlans
  import StripeWebhook

  // ---------------------------------------------------------------------------
  // Text

  function DigitChar(d: int): (c: char)
    requires 0 <= d < 10
    ensures '0' <= c <= '9'
  {
    "0123456789"[d]
  }

  /** The decimal digits of a non-negative number, most significant first. */
  function Digits(n: nat): (s: string)
    ensures |s| > 0 && forall i :: 0 <= i < |s| ==> '0' <= s[i] <= '9'
    ensures n >= 10 ==> |s| >= 2
    ensures |s| > 1 ==> s[0] != '0'
  {
    if n < 10 then [DigitChar(n)] else Digits(n / 10) + [DigitChar(n % 10)]
  }

  /** A template literal's `${n}` for an integer. */
  function IntToString(n: int): (s: string)
    ensures |s| > 0
    ensures s[0] == '-' <==> n < 0
    ensures forall i :: 0 < i < |s| ==> '0' <= s[i] <= '9'
  {
    if n < 0 then "-" + Digits(-n) else Digits(n)
  }

  /** The value of a string of decimal digits. */
  function DigitsValue(s: string): int
    requires forall i :: 0 <= i < |s| ==> '0' <= s[i] <= '9'
  {
    if |s| == 0 then 0 else DigitsValue(s[..|s| - 1]) * 10 + (s[|s| - 1] as int - '0' as int)
  }

  /** Reading the digits back gives the number: the text shows the limit as it is. */
  lemma {:induction false} DigitsRoundTrip(n: nat)
    ensures DigitsValue(Digits(n)) == n
  {
    if n >= 10 {
      var s := Digits(n);
      assert s[..|s| - 1] == Digits(n / 10);
      DigitsRoundTrip(n / 10);
    }
  }

  /** `String.prototype.toLowerCase` on ASCII letters. */
  function ToLowerAscii(s: string): (r: string)
    ensures |r| == |s|
    ensures forall i :: 0 <= i < |s| ==> r[i] == if 'A' <= s[i] <= 'Z' then (s[i] as int + 32) as char else s[i]
  {
    if |s| == 0 then [] else
      var c := s[0];
      [if 'A' <= c <= 'Z' then (c as int + 32) as char else c] + ToLowerAscii(s[1..])
  }

  // ---------------------------------------------------------------------------
  // The session request

  datatype LineItem = LineItem(
    currency: string,
    productName: string,
    description: string,
    unitAmount: int,
    recurring: Option<string>,
    quantity: nat)

  /** The `metadata` of the session, which the webhook reads back. */
  datatype Metadata = Metadata(agencyId: string, planType: string)

  datatype SessionRequest = SessionRequest(
    customer: string,
    mode: string,
    paymentMethodTypes: seq<string>,
    lineItems: seq<LineItem>,
    metadata: Metadata)

  /** `plan.interval ? ... : ...`. */
  predicate Recurs(plan: StripePlans.PlanDetails) {
    plan.interval.Some? && plan.interval.value != ""
  }

  const LifetimeDescription: string := "Nielimitowane aukcje i tłumacze - dożywotni dostęp"
  const AuctionsPerMonth: string := " aukcji/miesiąc, "
  const Translators: string := " tłumaczy"

  /** The product description: the limits, as numbers, for a recurring plan. */
  function Description(plan: StripePlans.PlanDetails): string {
    if Recurs(plan)
    then IntToString(plan.maxAuctions) + AuctionsPerMonth + IntToString(plan.maxTranslators) + Translators
    else LifetimeDescription
  }

  /** The single line item; `unit_amount` is the whole-PLN price in grosze. */
  function LineItemFor(plan: StripePlans.PlanDetails): (item: LineItem)
    ensures item.unitAmount == plan.price * 100
    ensures item.recurring.Some? <==> Recurs(plan)
    ensures item.recurring.Some? ==> item.recurring == plan.interval
    ensures item.quantity == 1
    ensures |item.currency| == |plan.currency|
  {
    LineItem(ToLowerAscii(plan.currency), "BidTranslate " + plan.name, Description(plan),
      plan.price * 100, if Recurs(plan) then plan.interval else None, 1)
  }

  function SessionFor(customer: string, plan: StripePlans.PlanDetails, agencyId: string, planKey: string): (s: SessionRequest)
    ensures s.mode == "subscription" <==> Recurs(plan)
    ensures s.mode == "payment" <==> !Recurs(plan)
    ensures s.lineItems == [LineItemFor(plan)]
    ensures s.metadata == Metadata(agencyId, planKey)
    ensures s.customer == customer
  {
    SessionRequest(customer, if Recurs(plan) then "subscription" else "payment", ["card"],
      [LineItemFor(plan)], Metadata(agencyId, planKey))
  }

  /** What each plan's session says: mode, amount, currency, interval and text. */
  lemma PlanSessions(customer: string, plan: PlanType, agencyId: string)
    ensures var s := SessionFor(customer, StripePlans.GetPlanDetails(plan), agencyId, StripePlans.PlanKey(plan));
      var item := s.lineItems[0];
      (s.mode == "payment" <==> plan == Lifetime)
      && item.currency == "pln"
      && item.unitAmount == StripePlans.GetPlanDetails(plan).price * 100
      && (item.recurring == (if plan == Lifetime then None else Some("month")))
      && (plan == Lifetime ==> item.description == LifetimeDescription)
  {
    var item := LineItemFor(StripePlans.GetPlanDetails(plan));
    assert item.currency == "pln" by {
      assert item.currency == ToLowerAscii("PLN");
    }
  }

  lemma StarterAmount()
    ensures LineItemFor(StripePlans.GetPlanDetails(Starter)).unitAmount == 10000
  {
  }

  /** The unlimited plan advertises its sentinel limits verbatim. */
  lemma UnlimitedDescription()
    ensures Description(StripePlans.GetPlanDetails(Unlimited)) == "-1" + AuctionsPerMonth + "-1" + Translators
  {
    assert Digits(1) == "1";
    assert IntToString(-1) == "-1";
  }

  lemma StarterDescription()
    ensures Description(StripePlans.GetPlanDetails(Starter)) == "25" + AuctionsPerMonth + "100" + Translators
  {
    assert Digits(25) == "25" by {
      assert Digits(2) == "2";
    }
    assert Digits(100) == "100" by {
      assert Digits(1) == "1";
      assert Digits(10) == "10";
    }
  }

  // ---------------------------------------------------------------------------
  // The handler

  datatype Response =
    | Unauthorized
    | InvalidPlan
    | Threw(createdCustomer: bool)
    | Session(request: SessionRequest, createdCustomer: bool)

  function Status(r: Response): (code: int)
    ensures code == 200 <==> r.Session?
  {
    match r
    case Unauthorized => 401
    case InvalidPlan => 400
    case Threw(_) => 500
    case Session(_, _) => 200
  }

  /** `STRIPE_PLANS[planType]` for the body's `planType`; a key that is not a string finds nothing. */
  function PlanLookup(body: JsValue): (l: StripePlans.Lookup)
    ensures !Get(body, "planType").Str? ==> l.Absent?
    ensures Get(body, "planType").Str? ==> l == StripePlans.LookupPlan(Get(body, "planType").s)
  {
    var key := Get(body, "planType");
    if key.Str? then StripePlans.LookupPlan(key.s) else StripePlans.Absent
  }

  /**
   * The route. Under an inherited name (`toString`, ...) the "plan" has no
   * `currency`, and `plan.currency.toLowerCase()` throws, after a missing
   * Stripe customer has already been created.
   */
  method Post(user: Option<string>, agency: Option<AgencyRow>, body: JsValue, newCustomerId: string)
    returns (r: Response)
    ensures r == Unauthorized <==> user.None? || agency.None?
    ensures r.Threw? <==>
      (user.Some? && agency.Some? && (body.Null? || body.Undefined? || PlanLookup(body).Inherited?))
    ensures r.Threw? ==>
      var existing := agency.value.stripeCustomerId;
      r.createdCustomer == (!body.Null? && !body.Undefined? && !(existing.Some? && existing.value != ""))
    ensures r == InvalidPlan <==>
      (user.Some? && agency.Some? && !body.Null? && !body.Undefined? && PlanLookup(body).Absent?)
    ensures r.Session? <==>
      (user.Some? && agency.Some? && !body.Null? && !body.Undefined? && PlanLookup(body).Own?)
    ensures r.Session? ==>
      var existing := agency.value.stripeCustomerId;
      var hasCustomer := existing.Some? && existing.value != "";
      r.createdCustomer == !hasCustomer
      && r.request == SessionFor(if hasCustomer then existing.value else newCustomerId,
        StripePlans.GetPlanDetails(PlanLookup(body).plan), agency.value.id, Get(body, "planType").s)
  {
    if user.None? || agency.None? {
      return Unauthorized;
    }
    if body.Null? || body.Undefined? {
      return Threw(false);  // destructuring `null`
    }
    var lookup := PlanLookup(body);
    if lookup.Absent? {
      return InvalidPlan;
    }
    var customerId := agency.value.stripeCustomerId;
    var created := false;
    if customerId.None? || customerId.value == "" {
      customerId := Some(newCustomerId);
      created := true;
    }
    if lookup.Inherited? {
      return Threw(created);  // the customer is already created when `plan.currency` throws
    }
    var plan := StripePlans.GetPlanDetails(lookup.plan);
    r := Session(SessionFor(customerId.value, plan, agency.value.id, Get(body, "planType").s), created);
  }

  /**
   * The metadata a session carries brings the webhook back to the same
   * agency and plan: a completed checkout activates the purchased plan.
   */
  lemma CheckoutRoundTrip(agency: Option<AgencyRow>, body: JsValue, agencies: seq<AgencyRow>, customer: Option<string>, subscription: Option<string>,
                          today: string, i: nat)
    requires PlanLookup(body).Own? && agency.Some? && |agency.value.id| > 0
    requires i < |agencies| && agencies[i].id == agency.value.id
    ensures var md := Metadata(agency.value.id, Get(body, "planType").s);
      var plan := PlanLookup(body).plan;
      var r := StripeWebhook.ApplyEvent(agencies,
        StripeWebhook.CheckoutSessionCompleted(Some(md.agencyId), Some(md.planType), customer, subscription), today);
      r.1 == StripeWebhook.Received
      && r.0[i].subscriptionStatus == Active && r.0[i].planType == plan
      && r.0[i].maxAuctionsPerMonth == StripePlans.GetPlanDetails(plan).maxAuctions
      && r.0[i].maxTranslators == StripePlans.GetPlanDetails(plan).maxTranslators
  {
    var plan := PlanLookup(body).plan;
    assert Get(body, "planType").s == StripePlans.PlanKey(plan);
    StripeWebhook.CheckoutActivates(agencies, agency.value.id, plan, customer, subscription, today, i);
  }
}
