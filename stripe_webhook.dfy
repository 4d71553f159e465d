/**
 * POST of app/api/webhooks/stripe/route.ts: the subscription changes each
 * Stripe event makes to the agency table. Signature verification by Stripe
 * is an input (the event it yields, or the error it throws); the current
 * date is an input `today`.
 */
module StripeWebhook {
  import opened Wrappers
  import opened Domain
  import opened Store
  import StripePlans

  /** The events the handler distinguishes, with the fields it reads. */
  datatype Event =
    | CheckoutSessionCompleted(agencyId: Option<string>, planType: Option<string>, customer: Option<string>, subscription: Option<string>)
    | InvoicePaymentSucceeded(customer: Option<string>)
    | SubscriptionDeleted(customer: Option<string>)
    | SubscriptionUpdated(customer: Option<string>)
    | Unhandled(eventType: string)

  /** Every response of the handler is either `{ received: true }` or a 400. */
  datatype Outcome = Received | BadRequest(reason: Reason)

  datatype Reason = NoSecretKey | NoWebhookSecret | NoSignature | InvalidSignature | PlanNotFound

  function Status(o: Outcome): (code: int)
    ensures code == 200 <==> o.Received?
    ensures o.BadRequest? ==> code == 400
  {
    if o.Received? then 200 else 400
  }

  predicate Present(s: Option<string>) {
    s.Some? && |s.value| > 0
  }

  /** `.eq(column, value)` against a nullable column: SQL equality, which null never satisfies. */
  predicate HasCustomer(row: AgencyRow, customer: Option<string>) {
    customer.Some? && row.stripeCustomerId == customer
  }

  function Activate(row: AgencyRow, plan: PlanType, customer: Option<string>, subscription: Option<string>, today: string): (r: AgencyRow)
  {
    row.(subscriptionStatus := Active, planType := plan,
         stripeCustomerId := customer, stripeSubscriptionId := subscription,
         maxAuctionsPerMonth := StripePlans.GetPlanDetails(plan).maxAuctions,
         maxTranslators := StripePlans.GetPlanDetails(plan).maxTranslators,
         billingAnniversary := today)
  }

  /**
   * The effect of one verified event on the agency table, and the response.
   * Under a key that is not a plan, `plan.maxAuctions` reads a property of
   * `undefined` and throws (400, no write). Under a name every object
   * inherits (`toString`, ...) the update names a `plan_type` outside the
   * database's enumeration; the database refuses it and the handler does
   * not look at the refusal.
   */
  function ApplyEvent(agencies: seq<AgencyRow>, event: Event, today: string): (r: (seq<AgencyRow>, Outcome))
    ensures |r.0| == |agencies|
    ensures r.1.BadRequest? ==> r.0 == agencies && r.1.reason == PlanNotFound
  {
    match event
    case CheckoutSessionCompleted(agencyId, planType, customer, subscription) =>
      if !Present(agencyId) || !Present(planType) then (agencies, Received)
      else
        var lookup := StripePlans.LookupPlan(planType.value);
        if lookup.Absent? then (agencies, BadRequest(PlanNotFound))
        else if lookup.Inherited? then (agencies, Received)
        else
          (UpdateWhere(agencies, (a: AgencyRow) => a.id == agencyId.value,
             (a: AgencyRow) => Activate(a, lookup.plan, customer, subscription, today)), Received)
    case InvoicePaymentSucceeded(customer) =>
      (UpdateWhere(agencies, (a: AgencyRow) => HasCustomer(a, customer),
         (a: AgencyRow) => a.(auctionsUsedThisMonth := 0, subscriptionStatus := Active)), Received)
    case SubscriptionDeleted(customer) =>
      (UpdateWhere(agencies, (a: AgencyRow) => HasCustomer(a, customer),
         (a: AgencyRow) => a.(subscriptionStatus := Expired)), Received)
    case SubscriptionUpdated(_) => (agencies, Received)
    case Unhandled(_) => (agencies, Received)
  }

  /** What Stripe's `constructEvent` made of the body and signature. */
  datatype Verification = Verified(event: Event) | SignatureMismatch

  /** The whole handler on values: configuration and signature first, then the event. */
  function HandleWebhook(agencies: seq<AgencyRow>, secretKey: Option<string>, webhookSecret: Option<string>,
                         signature: Option<string>, verification: Verification, today: string): (r: (seq<AgencyRow>, Outcome))
    ensures !Present(secretKey) ==> r == (agencies, BadRequest(NoSecretKey))
    ensures Present(secretKey) && !Present(webhookSecret) ==> r == (agencies, BadRequest(NoWebhookSecret))
    ensures Present(secretKey) && Present(webhookSecret) && !Present(signature) ==> r == (agencies, BadRequest(NoSignature))
    ensures r.1.Received? ==> verification.Verified?
  {
    if !Present(secretKey) then (agencies, BadRequest(NoSecretKey))
    else if !Present(webhookSecret) then (agencies, BadRequest(NoWebhookSecret))
    else if !Present(signature) then (agencies, BadRequest(NoSignature))
    else if verification.SignatureMismatch? then (agencies, BadRequest(InvalidSignature))
    else ApplyEvent(agencies, verification.event, today)
  }

  /**
   * The handler on the database: only the agency table changes, as
   * `HandleWebhook` says. The update's error is never read, so when the
   * update fails (`updateOk` false) the table stays as it was and the
   * response is the same.
   */
  method Post(db: Database, secretKey: Option<string>, webhookSecret: Option<string>,
              signature: Option<string>, verification: Verification, today: string, updateOk: bool)
    returns (outcome: Outcome)
    modifies db`agencies
    ensures outcome == HandleWebhook(old(db.agencies), secretKey, webhookSecret, signature, verification, today).1
    ensures db.agencies ==
      if updateOk then HandleWebhook(old(db.agencies), secretKey, webhookSecret, signature, verification, today).0
      else old(db.agencies)
  {
    var r := HandleWebhook(db.agencies, secretKey, webhookSecret, signature, verification, today);
    if updateOk {
      db.agencies := r.0;
    }
    outcome := r.1;
  }

  /** A completed checkout with its metadata activates the agency on the purchased plan. */
  lemma CheckoutActivates(agencies: seq<AgencyRow>, agencyId: string, plan: PlanType,
                          customer: Option<string>, subscription: Option<string>, today: string, i: nat)
    requires |agencyId| > 0 && i < |agencies|
    ensures var r := ApplyEvent(agencies, CheckoutSessionCompleted(Some(agencyId), Some(StripePlans.PlanKey(plan)), customer, subscription), today);
      r.1 == Received &&
      (agencies[i].id == agencyId ==>
        r.0[i].subscriptionStatus == Active && r.0[i].planType == plan
        && r.0[i].stripeCustomerId == customer && r.0[i].stripeSubscriptionId == subscription
        && r.0[i].maxAuctionsPerMonth == StripePlans.GetPlanDetails(plan).maxAuctions
        && r.0[i].maxTranslators == StripePlans.GetPlanDetails(plan).maxTranslators
        && r.0[i].auctionsUsedThisMonth == agencies[i].auctionsUsedThisMonth
        && r.0[i].billingAnniversary == today) &&
      (agencies[i].id != agencyId ==> r.0[i] == agencies[i])
  {
    StripePlans.LookupPlanKey(plan);
  }

  /** Missing metadata: nothing is written, yet the event is acknowledged. */
  lemma CheckoutWithoutMetadata(agencies: seq<AgencyRow>, agencyId: Option<string>, planType: Option<string>,
                                customer: Option<string>, subscription: Option<string>, today: string)
    requires !Present(agencyId) || !Present(planType)
    ensures ApplyEvent(agencies, CheckoutSessionCompleted(agencyId, planType, customer, subscription), today) == (agencies, Received)
  {
  }

  /** A paid invoice resets usage and reactivates exactly the customer's agencies. */
  lemma InvoiceResetsUsage(agencies: seq<AgencyRow>, customer: Option<string>, today: string, i: nat)
    requires i < |agencies|
    ensures var r := ApplyEvent(agencies, InvoicePaymentSucceeded(customer), today).0;
      (HasCustomer(agencies[i], customer) ==>
        r[i] == agencies[i].(auctionsUsedThisMonth := 0, subscriptionStatus := Active)) &&
      (!HasCustomer(agencies[i], customer) ==> r[i] == agencies[i])
  {
  }

  /** A deleted subscription only expires the customer's agencies. */
  lemma DeletionExpires(agencies: seq<AgencyRow>, customer: Option<string>, today: string, i: nat)
    requires i < |agencies|
    ensures var r := ApplyEvent(agencies, SubscriptionDeleted(customer), today).0;
      (HasCustomer(agencies[i], customer) ==> r[i] == agencies[i].(subscriptionStatus := Expired)) &&
      (!HasCustomer(agencies[i], customer) ==> r[i] == agencies[i])
  {
  }

  /** Updated subscriptions and unknown event types are acknowledged and change nothing. */
  lemma IgnoredEvents(agencies: seq<AgencyRow>, customer: Option<string>, eventType: string, today: string)
    ensures ApplyEvent(agencies, SubscriptionUpdated(customer), today) == (agencies, Received)
    ensures ApplyEvent(agencies, Unhandled(eventType), today) == (agencies, Received)
  {
  }

  /** A request without a signature is refused before any write. */
  lemma NoSignatureNoWrite(agencies: seq<AgencyRow>, secretKey: Option<string>, webhookSecret: Option<string>,
                           verification: Verification, today: string)
    requires Present(secretKey) && Present(webhookSecret)
    ensures HandleWebhook(agencies, secretKey, webhookSecret, None, verification, today) == (agencies, BadRequest(NoSignature))
    ensures Status(HandleWebhook(agencies, secretKey, webhookSecret, None, verification, today).1) == 400
  {
  }

  /** Redelivering an event on the same day leaves the table as the first delivery left it. */
  lemma {:induction false} RedeliveryIsIdempotent(agencies: seq<AgencyRow>, event: Event, today: string)
    ensures var once := ApplyEvent(agencies, event, today);
      ApplyEvent(once.0, event, today) == once
  {
    var once := ApplyEvent(agencies, event, today);
    var twice := ApplyEvent(once.0, event, today);
    match event
    case CheckoutSessionCompleted(agencyId, planType, customer, subscription) =>
      if Present(agencyId) && Present(planType) && StripePlans.LookupPlan(planType.value).Own? {
        assert forall i :: 0 <= i < |agencies| ==> once.0[i].id == agencies[i].id;
        assert forall i :: 0 <= i < |agencies| ==> twice.0[i] == once.0[i];
        assert twice.0 == once.0;
      }
    case InvoicePaymentSucceeded(customer) =>
      assert forall i :: 0 <= i < |agencies| ==> HasCustomer(once.0[i], customer) == HasCustomer(agencies[i], customer);
      assert forall i :: 0 <= i < |agencies| ==> twice.0[i] == once.0[i];
      assert twice.0 == once.0;
    case SubscriptionDeleted(customer) =>
      assert forall i :: 0 <= i < |agencies| ==> HasCustomer(once.0[i], customer) == HasCustomer(agencies[i], customer);
      assert forall i :: 0 <= i < |agencies| ==> twice.0[i] == once.0[i];
      assert twice.0 == once.0;
    case SubscriptionUpdated(_) =>
    case Unhandled(_) =>
  }

  /** A redelivery on another day differs at most in the billing anniversary. */
  lemma RedeliveryOnAnotherDay(agencies: seq<AgencyRow>, event: Event, today: string, later: string, i: nat)
    requires i < |agencies|
    ensures var once := ApplyEvent(agencies, event, today).0;
      var twice := ApplyEvent(once, event, later).0;
      twice[i] == once[i].(billingAnniversary := twice[i].billingAnniversary)
  {
  }
}
