/**
  The records shared by the client hooks, the generator screen and the
  services: plans, quality levels, profiles, subscriptions, history items and
  saved prompt templates. Optional TypeScript properties (`x?: T`) are
  `Option` fields.
 */
module Types {
  import opened Wrappers

  /** `PlanType`. */
  datatype Plan = Free | Creator | Agency

  /** `QualityLevel`. */
  datatype Quality = Standard | High | Ultra

  /** The billable actions; the server names them `thumbnail_standard` …
      `metadata`, the client `THUMBNAIL_STANDARD` … `METADATA`. */
  datatype CreditOperation =
    | ThumbnailStandard
    | ThumbnailHigh
    | ThumbnailUltra
    | VideoGeneration
    | Audit
    | MetadataGeneration

  /** `ImageFilter`: CSS filter percentages. */
  datatype Filters = Filters(brightness: int, contrast: int, saturation: int)

  /** `TextStyle`. */
  datatype TextStyle = TextStyle(font: string, color: string, effect: string)

  /** `AnalysisResult`. */
  datatype AnalysisResult = AnalysisResult(
    score: int,
    critique: string,
    strengths: seq<string>,
    improvements: seq<string>)

  /** `YoutubeMetadataResult`. */
  datatype MetadataResult = MetadataResult(
    titles: seq<string>,
    description: string,
    tags: seq<string>,
    keywords: seq<string>)

  /** `HistoryItem`: one generated thumbnail and what was derived from it. */
  datatype HistoryItem = HistoryItem(
    id: string,
    imageUrl: string,
    inspirationImage: Option<string>,
    prompt: string,
    timestamp: int,
    aspectRatio: string,
    videoUrl: Option<string>,
    quality: Option<Quality>,
    analysis: Option<AnalysisResult>,
    metadata: Option<MetadataResult>,
    filters: Option<Filters>)

  /** `SavedTemplate`. */
  datatype Template = Template(id: string, name: string, prompt: string)

  /** `UserProfile`: the client-side mirror of the account. */
  datatype Profile = Profile(credits: int, plan: Plan, totalGenerations: int)

  /** `SubscriptionStatus`. */
  datatype SubscriptionStatus = Active | Cancelled | PastDue | Trialing

  /** The status of a `BillingHistoryItem`. */
  datatype BillingStatus = Paid | Pending | Failed

  /** `BillingHistoryItem`. */
  datatype BillingItem = BillingItem(
    id: string,
    date: int,
    amount: string,
    description: string,
    status: BillingStatus)

  /** `SubscriptionDetails`; timestamps are Unix milliseconds. */
  datatype Subscription = Subscription(
    status: SubscriptionStatus,
    currentPlan: Plan,
    startDate: int,
    currentPeriodEnd: int,
    cancelAtPeriodEnd: bool,
    billingHistory: seq<BillingItem>)

  /** `PlanDetails`. */
  datatype PlanDetails = PlanDetails(
    id: Plan,
    name: string,
    price: string,
    credits: int,
    features: seq<string>,
    color: string)
}
