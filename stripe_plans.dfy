/**
 * The plan table and the proration arithmetic of lib/stripe/config.ts.
 * Plan prices are whole PLN, as in the table; the prorated price is an
 * exact rational (`real`) where the source computes with doubles.
 */
module StripePlans {
  import opened Wrappers
  import opened Domain

  /** One entry of STRIPE_PLANS; `interval` is None for the one-time plan. */
  datatype PlanDetails = PlanDetails(
    name: string,
    price: int,
    currency: string,
    interval: Option<string>,
    maxAuctions: int,
    maxTranslators: int)

  /** The limit value the table uses for "unlimited". */
  const UNLIMITED: int := -1

  const DAYS_IN_MONTH: int := 30

  /** `getPlanDetails`: the table entry of a plan. */
  function GetPlanDetails(plan: PlanType): (d: PlanDetails)
    ensures d.currency == "PLN" && d.price > 0
    ensures d.interval.None? <==> plan == Lifetime
    ensures d.interval.Some? ==> d.interval.value == "month"
    ensures (d.maxAuctions == UNLIMITED) <==> (plan == Unlimited || plan == Lifetime)
    ensures d.maxAuctions == UNLIMITED <==> d.maxTranslators == UNLIMITED
    ensures d.maxAuctions != UNLIMITED ==> d.maxAuctions > 0 && d.maxTranslators > 0
  {
    match plan
    case Starter => PlanDetails("Starter", 100, "PLN", Some("month"), 25, 100)
    case Professional => PlanDetails("Professional", 250, "PLN", Some("month"), 100, 1000)
    case Unlimited => PlanDetails("Unlimited", 1000, "PLN", Some("month"), UNLIMITED, UNLIMITED)
    case Lifetime => PlanDetails("Lifetime", 10000, "PLN", None, UNLIMITED, UNLIMITED)
  }

  /** The key of each plan in STRIPE_PLANS. */
  function PlanKey(plan: PlanType): string {
    match plan
    case Starter => "starter"
    case Professional => "professional"
    case Unlimited => "unlimited"
    case Lifetime => "lifetime"
  }

  /**
   * The names every plain JavaScript object inherits from Object.prototype;
   * `STRIPE_PLANS[k]` for one of them is a truthy value that is not a plan.
   */
  const ObjectPrototypeMembers: seq<string> := [
    "constructor", "hasOwnProperty", "isPrototypeOf", "propertyIsEnumerable",
    "toLocaleString", "toString", "valueOf", "__proto__",
    "__defineGetter__", "__defineSetter__", "__lookupGetter__", "__lookupSetter__"]

  /** What `STRIPE_PLANS[key]` yields for an arbitrary string key. */
  datatype Lookup = Own(plan: PlanType) | Inherited(member: string) | Absent

  function LookupPlan(key: string): (l: Lookup)
    ensures !l.Own? ==> forall p: PlanType :: key != PlanKey(p)
    ensures l.Own? ==> key == PlanKey(l.plan)
    ensures l.Inherited? <==> key in ObjectPrototypeMembers
    ensures l.Inherited? ==> l.member == key
  {
    if key == "starter" then Own(Starter)
    else if key == "professional" then Own(Professional)
    else if key == "unlimited" then Own(Unlimited)
    else if key == "lifetime" then Own(Lifetime)
    else if key in ObjectPrototypeMembers then Inherited(key)
    else Absent
  }

  /** Every plan is found under its own key. */
  lemma LookupPlanKey(plan: PlanType)
    ensures LookupPlan(PlanKey(plan)) == Own(plan)
  {
  }

  /** `calculateProratedPrice`: max(0, new/30 * d - current/30 * d). */
  function ProratedPrice(currentPlan: PlanType, newPlan: PlanType, daysRemaining: int): (r: real)
    ensures r >= 0.0
    ensures r == 0.0 || r == ((GetPlanDetails(newPlan).price - GetPlanDetails(currentPlan).price) * daysRemaining) as real / DAYS_IN_MONTH as real
  {
    var currentPrice := GetPlanDetails(currentPlan).price as real;
    var newPrice := GetPlanDetails(newPlan).price as real;
    var days := daysRemaining as real;
    var currentProratedValue := (currentPrice / DAYS_IN_MONTH as real) * days;
    var newProratedValue := (newPrice / DAYS_IN_MONTH as real) * days;
    if newProratedValue - currentProratedValue > 0.0 then newProratedValue - currentProratedValue else 0.0
  }

  /** The table is ordered by price. */
  lemma PricesStrictlyIncreasing()
    ensures GetPlanDetails(Starter).price < GetPlanDetails(Professional).price
    ensures GetPlanDetails(Professional).price < GetPlanDetails(Unlimited).price
    ensures GetPlanDetails(Unlimited).price < GetPlanDetails(Lifetime).price
  {
  }

  /** Staying on the same plan costs nothing. */
  lemma SamePlanIsFree(plan: PlanType, daysRemaining: int)
    ensures ProratedPrice(plan, plan, daysRemaining) == 0.0
  {
  }

  /** Moving to a plan that is not dearer costs nothing. */
  lemma DowngradeIsFree(currentPlan: PlanType, newPlan: PlanType, daysRemaining: int)
    requires GetPlanDetails(newPlan).price <= GetPlanDetails(currentPlan).price
    requires daysRemaining >= 0
    ensures ProratedPrice(currentPlan, newPlan, daysRemaining) == 0.0
  {
    var diff := GetPlanDetails(newPlan).price - GetPlanDetails(currentPlan).price;
    assert diff * daysRemaining <= 0 by {
      MulSign(-diff, daysRemaining);
    }
  }

  /** An upgrade costs the price difference for the remaining fraction of a 30-day month. */
  lemma UpgradeCost(currentPlan: PlanType, newPlan: PlanType, daysRemaining: int)
    requires GetPlanDetails(currentPlan).price < GetPlanDetails(newPlan).price
    requires daysRemaining >= 0
    ensures ProratedPrice(currentPlan, newPlan, daysRemaining) ==
      ((GetPlanDetails(newPlan).price - GetPlanDetails(currentPlan).price) * daysRemaining) as real / 30.0
  {
    var diff := GetPlanDetails(newPlan).price - GetPlanDetails(currentPlan).price;
    MulSign(diff, daysRemaining);
  }

  /** With a whole month remaining the upgrade costs the full difference. */
  lemma FullMonthUpgrade(currentPlan: PlanType, newPlan: PlanType)
    requires GetPlanDetails(currentPlan).price < GetPlanDetails(newPlan).price
    ensures ProratedPrice(currentPlan, newPlan, DAYS_IN_MONTH) ==
      (GetPlanDetails(newPlan).price - GetPlanDetails(currentPlan).price) as real
  {
    UpgradeCost(currentPlan, newPlan, DAYS_IN_MONTH);
  }

  lemma StarterToProfessionalFullMonth()
    ensures ProratedPrice(Starter, Professional, 30) == 150.0
  {
    FullMonthUpgrade(Starter, Professional);
  }

  /** For an upgrade, more remaining days never cost less. */
  lemma UpgradeMonotone(currentPlan: PlanType, newPlan: PlanType, d1: int, d2: int)
    requires GetPlanDetails(currentPlan).price < GetPlanDetails(newPlan).price
    requires 0 <= d1 <= d2
    ensures ProratedPrice(currentPlan, newPlan, d1) <= ProratedPrice(currentPlan, newPlan, d2)
  {
    var diff := GetPlanDetails(newPlan).price - GetPlanDetails(currentPlan).price;
    UpgradeCost(currentPlan, newPlan, d1);
    UpgradeCost(currentPlan, newPlan, d2);
    MulSign(diff, d2 - d1);
  }

  lemma MulSign(a: int, b: int)
    requires a >= 0 && b >= 0
    ensures a * b >= 0
  {
  }
}
