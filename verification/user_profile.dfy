/**
  The client's profile ledger and subscription state machine: the credit
  helpers of the profile hook, plan comparison, plan changes with their
  billing record, and cancel/reactivate. Each hook callback is a function
  from the current state to the next; `Date.now()` is the parameter `now`.
 */
module UserProfile {
  import opened Types
  import opened Text
  import Catalog
  import Lists

  /** `DEFAULT_USER_PROFILE`. */
  const DefaultProfile := Profile(10, Free, 0)

  /** `getCreditCost(quality)`. */
  function GetCreditCost(q: Quality): (c: nat)
    ensures c == Catalog.QualityCost(q)
  {
    match q
    case Ultra => Catalog.CreditCost(ThumbnailUltra)
    case High => Catalog.CreditCost(ThumbnailHigh)
    case _ => Catalog.CreditCost(ThumbnailStandard)
  }

  /** The thumbnail cost of a quality is the cost of the operation billed for it. */
  lemma GetCreditCostBillsOperation(q: Quality)
    ensures GetCreditCost(q) == Catalog.CreditCost(Catalog.ThumbnailOperation(q))
  {
    Catalog.QualityConfigMatchesCosts(q);
  }

  /** `getPlanPriority(plan)`. */
  function PlanPriority(p: Plan): nat {
    match p
    case Free => 0
    case Creator => 1
    case Agency => 2
  }

  /** Priorities order the plans strictly: free < creator < agency, and two
      plans share a priority only when they are the same plan. */
  lemma PlanPriorityOrder(a: Plan, b: Plan)
    ensures PlanPriority(Free) < PlanPriority(Creator) < PlanPriority(Agency)
    ensures PlanPriority(a) == PlanPriority(b) <==> a == b
  {
  }

  /** `hasCredits(cost)`. */
  predicate HasCredits(profile: Profile, cost: int) {
    profile.credits >= cost
  }

  datatype Charged = Charged(ok: bool, profile: Profile)

  /** `deductCredits(cost)` of the profile hook: the generation counter is not touched. */
  function DeductCredits(profile: Profile, cost: int): (r: Charged)
    ensures r.ok <==> HasCredits(profile, cost)
    ensures !r.ok ==> r.profile == profile
    ensures r.ok ==> r.profile.credits == profile.credits - cost
    ensures r.profile.plan == profile.plan
    ensures r.profile.totalGenerations == profile.totalGenerations
  {
    if profile.credits < cost then Charged(false, profile)
    else Charged(true, profile.(credits := profile.credits - cost))
  }

  /** `addCredits(amount)`. */
  function AddCredits(profile: Profile, amount: int): (r: Profile)
    ensures r.credits - profile.credits == amount
    ensures r.plan == profile.plan && r.totalGenerations == profile.totalGenerations
  {
    profile.(credits := profile.credits + amount)
  }

  /** Adding back what a successful deduction took restores the profile. */
  lemma DeductThenAddRestores(profile: Profile, cost: int)
    requires HasCredits(profile, cost)
    ensures AddCredits(DeductCredits(profile, cost).profile, cost) == profile
  {
  }

  /** `upgradePlan(plan, credits)`. */
  function UpgradePlan(profile: Profile, plan: Plan, credits: int): (r: Profile)
    ensures r.plan == plan
    ensures r.credits - profile.credits == credits
    ensures r.totalGenerations == profile.totalGenerations
  {
    profile.(plan := plan, credits := profile.credits + credits)
  }

  /** `incrementGenerations()`. */
  function IncrementGenerations(profile: Profile): (r: Profile)
    ensures r.totalGenerations == profile.totalGenerations + 1
    ensures r.credits == profile.credits && r.plan == profile.plan
  {
    profile.(totalGenerations := profile.totalGenerations + 1)
  }

  /** `canUpgrade(target)` for a user on `current`. */
  predicate CanUpgrade(current: Plan, target: Plan) {
    PlanPriority(target) > PlanPriority(current)
  }

  /** `canDowngrade(target)` for a user on `current`. */
  predicate CanDowngrade(current: Plan, target: Plan) {
    PlanPriority(target) < PlanPriority(current)
  }

  /** A move is never both an upgrade and a downgrade; staying on the
      current plan is neither; any other move is exactly one of the two. */
  lemma UpgradeDowngradeExclusive(current: Plan, target: Plan)
    ensures !(CanUpgrade(current, target) && CanDowngrade(current, target))
    ensures !CanUpgrade(current, current) && !CanDowngrade(current, current)
    ensures target != current <==> CanUpgrade(current, target) || CanDowngrade(current, target)
    ensures CanUpgrade(current, target) <==> CanDowngrade(target, current)
  {
  }

  /** Monthly credits in the catalog strictly increase with plan priority. */
  lemma PlanCreditsIncreaseWithPriority(a: Plan, b: Plan)
    requires PlanPriority(a) < PlanPriority(b)
    ensures Catalog.PlanDetailsOf(a).credits < Catalog.PlanDetailsOf(b).credits
  {
    Catalog.PlansComplete(a);
    Catalog.PlansComplete(b);
    assert Catalog.PlanDetailsOf(Free).credits == 10;
    assert Catalog.PlanDetailsOf(Creator).credits == 1000;
    assert Catalog.PlanDetailsOf(Agency).credits == 5000;
  }

  /** The profile and the subscription record, which the hook keeps side by side. */
  datatype Account = Account(profile: Profile, subscription: Subscription)

  /** The billing history keeps the newest ten entries. */
  const BillingHistoryCap: nat := 10

  /** The entry `changePlan` records for a move to `details` at `now`. */
  function BillingEntry(details: PlanDetails, isUpgrade: bool, now: int): (e: BillingItem)
    ensures e.date == now && e.amount == details.price && e.status == Paid
    ensures e.id == "bill_" + IntToString(now)
    ensures isUpgrade ==> e.description == "Upgrade to " + details.name
    ensures !isUpgrade ==> e.description == "Downgrade to " + details.name
  {
    BillingItem(
      "bill_" + IntToString(now), now, details.price,
      (if isUpgrade then "Upgrade to " else "Downgrade to ") + details.name,
      Paid)
  }

  /** `changePlan(newPlan)` at clock reading `now`. The catalog lookup cannot
      fail (every plan has an entry), so the early return for a missing entry
      is never taken. */
  function ChangePlan(acct: Account, newPlan: Plan, now: int): (r: Account)
    ensures var sub := r.subscription;
      && (sub.status == Trialing <==> newPlan == Free)
      && (sub.status == Active <==> newPlan != Free)
      && sub.currentPlan == newPlan
      && sub.startDate == now
      && sub.currentPeriodEnd - now == 30 * 24 * 60 * 60 * 1000
      && !sub.cancelAtPeriodEnd
    ensures var upgrade := CanUpgrade(acct.profile.plan, newPlan);
      && r.profile.plan == newPlan
      && r.profile.totalGenerations == acct.profile.totalGenerations
      && (upgrade ==> r.profile.credits == acct.profile.credits + Catalog.PlanDetailsOf(newPlan).credits)
      && (!upgrade ==> r.profile.credits == acct.profile.credits)
      && r.profile.credits >= acct.profile.credits
    ensures var h := acct.subscription.billingHistory;
      var h' := r.subscription.billingHistory;
      && |h'| == (if |h| < BillingHistoryCap then |h| + 1 else BillingHistoryCap)
      && h'[0] == BillingEntry(Catalog.PlanDetailsOf(newPlan), CanUpgrade(acct.profile.plan, newPlan), now)
      && forall i :: 1 <= i < |h'| ==> h'[i] == h[i - 1]
  {
    var details := Catalog.PlanDetailsOf(newPlan);
    var isUpgrade := CanUpgrade(acct.profile.plan, newPlan);
    var entry := BillingEntry(details, isUpgrade, now);
    var sub := acct.subscription.(
      status := if newPlan == Free then Trialing else Active,
      currentPlan := newPlan,
      startDate := now,
      currentPeriodEnd := now + Catalog.ThirtyDaysMillis,
      cancelAtPeriodEnd := false,
      billingHistory := Lists.PrependCapped(entry, acct.subscription.billingHistory, BillingHistoryCap));
    var profile := acct.profile.(
      plan := newPlan,
      credits := if isUpgrade then acct.profile.credits + details.credits else acct.profile.credits);
    Account(profile, sub)
  }

  /** No billing history ever grows past its cap. */
  predicate BillingCapped(s: Subscription) {
    |s.billingHistory| <= BillingHistoryCap
  }

  /** A plan change keeps the billing history capped and the catalog entry of
      the new plan decides the billed amount. */
  lemma ChangePlanKeepsCap(acct: Account, newPlan: Plan, now: int)
    ensures BillingCapped(ChangePlan(acct, newPlan, now).subscription)
    ensures ChangePlan(acct, newPlan, now).subscription.billingHistory[0].amount
         == Catalog.PlanDetailsOf(newPlan).price
  {
  }

  /** Moving to a higher plan and back down again keeps both grants: credits
      are never taken away by a downgrade. */
  lemma UpgradeThenDowngradeKeepsCredits(acct: Account, higher: Plan, t1: int, t2: int)
    requires CanUpgrade(acct.profile.plan, higher)
    ensures var up := ChangePlan(acct, higher, t1);
      var down := ChangePlan(up, acct.profile.plan, t2);
      down.profile.credits == acct.profile.credits + Catalog.PlanDetailsOf(higher).credits
      && down.profile.plan == acct.profile.plan
  {
    var up := ChangePlan(acct, higher, t1);
    UpgradeDowngradeExclusive(acct.profile.plan, higher);
    assert CanDowngrade(higher, acct.profile.plan);
  }

  /** `cancelSubscription()`. */
  function CancelSubscription(s: Subscription): (r: Subscription)
    ensures r.cancelAtPeriodEnd
    ensures r.(cancelAtPeriodEnd := s.cancelAtPeriodEnd) == s
  {
    s.(cancelAtPeriodEnd := true)
  }

  /** `reactivateSubscription()`: clears the flag whatever the period end says. */
  function ReactivateSubscription(s: Subscription): (r: Subscription)
    ensures !r.cancelAtPeriodEnd
    ensures r.(cancelAtPeriodEnd := s.cancelAtPeriodEnd) == s
  {
    s.(cancelAtPeriodEnd := false)
  }

  /** Cancelling and then reactivating gives back a subscription that was not
      cancelling, and each step is idempotent. */
  lemma CancelThenReactivate(s: Subscription)
    ensures !s.cancelAtPeriodEnd ==> ReactivateSubscription(CancelSubscription(s)) == s
    ensures ReactivateSubscription(CancelSubscription(s)) == ReactivateSubscription(s)
    ensures CancelSubscription(CancelSubscription(s)) == CancelSubscription(s)
    ensures ReactivateSubscription(ReactivateSubscription(s)) == ReactivateSubscription(s)
  {
  }

  /** A subscription that has just been moved to the free plan looks like the
      default one started at the same clock reading, apart from its billing history. */
  lemma ChangeToFreeIsDefault(acct: Account, now: int)
    ensures var sub := ChangePlan(acct, Free, now).subscription;
      sub.(billingHistory := []) == Catalog.DefaultSubscription(now, now)
  {
  }
}
