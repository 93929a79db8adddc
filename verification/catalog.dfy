/**
  The client's static configuration: the credit cost table, the plan catalog,
  the quality table, filter defaults and ranges, the history cap and the
  default subscription.
 */
module Catalog {
  import opened Wrappers
  import opened Types

  /** `CREDIT_COSTS` of the client. */
  function CreditCost(op: CreditOperation): nat {
    match op
    case ThumbnailStandard => 10
    case ThumbnailHigh => 15
    case ThumbnailUltra => 25
    case VideoGeneration => 50
    case Audit => 5
    case MetadataGeneration => 5
  }

  /** `PLANS`, in catalog order. */
  const Plans: seq<PlanDetails> := [
    PlanDetails(Free, "Free Trial", "$0", 10,
      ["1 Free Generation", "Standard Quality", "Public Access"], "slate"),
    PlanDetails(Creator, "Creator", "$19/mo", 1000,
      ["~100 Thumbnails", "Prioritized Generation", "Commercial License", "Video Beta Access"], "indigo"),
    PlanDetails(Agency, "Agency", "$49/mo", 5000,
      ["~500 Thumbnails", "Highest Speed", "Dedicated Support", "Bulk Export"], "purple")
  ]

  /** `PLANS.find(p => p.id === plan)`: the first catalog entry with that id. */
  function FindPlan(plans: seq<PlanDetails>, plan: Plan): (r: Option<PlanDetails>)
    ensures r.Some? ==> r.value in plans && r.value.id == plan
    ensures r.None? <==> forall k :: 0 <= k < |plans| ==> plans[k].id != plan
  {
    if plans == [] then None
    else if plans[0].id == plan then Some(plans[0])
    else FindPlan(plans[1..], plan)
  }

  /** Every plan has exactly one catalog entry, so the lookup never fails. */
  lemma PlansComplete(plan: Plan)
    ensures FindPlan(Plans, plan).Some?
    ensures forall i, j :: 0 <= i < j < |Plans| ==> Plans[i].id != Plans[j].id
  {
    assert Plans[0].id == Free && Plans[1].id == Creator && Plans[2].id == Agency;
  }

  /** The catalog entry of `plan` (the lookup above, which always succeeds). */
  function PlanDetailsOf(plan: Plan): (d: PlanDetails)
    ensures d in Plans && d.id == plan
  {
    PlansComplete(plan);
    FindPlan(Plans, plan).value
  }

  /** `QUALITY_CONFIG`: cost and label per quality level. */
  function QualityCost(q: Quality): nat {
    match q
    case Standard => CreditCost(ThumbnailStandard)
    case High => CreditCost(ThumbnailHigh)
    case Ultra => CreditCost(ThumbnailUltra)
  }

  function QualityLabel(q: Quality): string {
    match q
    case Standard => "Standard"
    case High => "High Quality"
    case Ultra => "Ultra HD"
  }

  /** The thumbnail operation billed for a quality level. */
  function ThumbnailOperation(q: Quality): CreditOperation {
    match q
    case Standard => ThumbnailStandard
    case High => ThumbnailHigh
    case Ultra => ThumbnailUltra
  }

  /** The quality table charges what the cost table charges, 10 < 15 < 25. */
  lemma QualityConfigMatchesCosts(q: Quality)
    ensures QualityCost(q) == CreditCost(ThumbnailOperation(q))
    ensures QualityCost(Standard) == 10 && QualityCost(High) == 15 && QualityCost(Ultra) == 25
    ensures QualityCost(Standard) < QualityCost(High) < QualityCost(Ultra)
  {
  }

  /** `DEFAULT_FILTERS`. */
  const DefaultFilters := Filters(100, 100, 100)

  /** `FILTER_RANGES`: one closed interval per filter. */
  datatype Range = Range(min: int, max: int) {
    predicate Holds(v: int) { min <= v <= max }
  }

  const BrightnessRange := Range(50, 150)
  const ContrastRange := Range(50, 150)
  const SaturationRange := Range(0, 200)

  predicate FiltersInRange(f: Filters) {
    && BrightnessRange.Holds(f.brightness)
    && ContrastRange.Holds(f.contrast)
    && SaturationRange.Holds(f.saturation)
  }

  lemma DefaultFiltersInRange()
    ensures FiltersInRange(DefaultFilters)
  {
  }

  /** `UI.MAX_HISTORY_ITEMS`. */
  const MaxHistoryItems: nat := 50

  /** `FILE_CONFIG`. */
  const MaxSizeBytes: nat := 5 * 1024 * 1024
  const AllowedTypes: seq<string> := ["image/jpeg", "image/png", "image/webp"]

  /** One day and thirty days, in milliseconds. */
  const DayMillis: nat := 24 * 60 * 60 * 1000
  const ThirtyDaysMillis: nat := 30 * DayMillis

  /** `DEFAULT_SUBSCRIPTION`. The module reads the clock twice while it is
      loaded, once for `startDate` and once for `currentPeriodEnd`. */
  function DefaultSubscription(startClock: int, endClock: int): (s: Subscription)
    ensures s.status == Trialing && s.currentPlan == Free
    ensures !s.cancelAtPeriodEnd && s.billingHistory == []
    ensures s.startDate == startClock
    ensures s.currentPeriodEnd - endClock == 30 * 24 * 60 * 60 * 1000
  {
    Subscription(Trialing, Free, startClock, endClock + ThirtyDaysMillis, false, [])
  }
}
