/**
  The credit handling of the generator screen: its own deduct (which, unlike
  the profile hook's, counts a generation), the input checks before a
  thumbnail is generated, and the refunds each handler makes when the AI call
  fails. The AI call itself is an outcome parameter: the value it returned or
  the message it threw.
 */
module Generator {
  import opened Wrappers
  import opened Types
  import opened Text
  import Catalog
  import UserProfile
  import History

  /** The screen state the handlers read and write. Status flags, tabs and
      spinners are not part of it. */
  datatype GenState = GenState(
    profile: Profile,
    history: seq<HistoryItem>,
    selectedId: Option<string>,
    hasKey: bool,
    errorMsg: Option<string>,
    dashboardOpen: bool)

  /** `getCurrentCost()` for the selected quality. */
  function GetCurrentCost(q: Quality): (c: nat)
    ensures c == UserProfile.GetCreditCost(q)
    ensures q == High ==> c == 15
    ensures q == Ultra ==> c == 25
    ensures q == Standard ==> c == 10
  {
    match q
    case High => Catalog.CreditCost(ThumbnailHigh)
    case Ultra => Catalog.CreditCost(ThumbnailUltra)
    case Standard => Catalog.CreditCost(ThumbnailStandard)
  }

  datatype Deducted = Deducted(ok: bool, state: GenState)

  /** `deductCredits(amount)` of the generator: a refusal opens the dashboard,
      a success also counts one generation. */
  function DeductCredits(st: GenState, amount: int): (r: Deducted)
    ensures r.ok <==> st.profile.credits >= amount
    ensures !r.ok ==> r.state == st.(dashboardOpen := true)
    ensures r.ok ==>
      && r.state.profile.credits == st.profile.credits - amount
      && r.state.profile.totalGenerations == st.profile.totalGenerations + 1
      && r.state.profile.plan == st.profile.plan
      && r.state == st.(profile := r.state.profile)
  {
    if st.profile.credits < amount then Deducted(false, st.(dashboardOpen := true))
    else Deducted(true, st.(profile := st.profile.(
      credits := st.profile.credits - amount,
      totalGenerations := st.profile.totalGenerations + 1)))
  }

  /** The two client ledgers differ: the same successful charge counts a
      generation here and not in the profile hook. */
  lemma TwoLedgersDiffer(st: GenState, amount: int)
    requires st.profile.credits >= amount
    ensures var hook := UserProfile.DeductCredits(st.profile, amount).profile;
      var screen := DeductCredits(st, amount).state.profile;
      && hook.credits == screen.credits
      && screen.totalGenerations == hook.totalGenerations + 1
  {
  }

  /** `handleUpgrade(plan)`; `confirmed` is the answer to the confirmation dialog. */
  function HandleUpgrade(st: GenState, plan: PlanDetails, confirmed: bool): (r: GenState)
    ensures !confirmed ==> r == st
    ensures confirmed ==>
      && r.profile.plan == plan.id
      && r.profile.credits - st.profile.credits == plan.credits
      && r.profile.totalGenerations == st.profile.totalGenerations
      && !r.dashboardOpen
      && r.history == st.history
  {
    if !confirmed then st
    else st.(profile := st.profile.(plan := plan.id, credits := st.profile.credits + plan.credits),
             dashboardOpen := false)
  }

  /** A confirmed purchase on this screen is the profile hook's `upgradePlan`. */
  lemma HandleUpgradeIsUpgradePlan(st: GenState, plan: PlanDetails)
    ensures HandleUpgrade(st, plan, true).profile == UserProfile.UpgradePlan(st.profile, plan.id, plan.credits)
  {
  }

  /** `handleConnect()`; `connected` says whether the key picker succeeded. */
  function HandleConnect(st: GenState, connected: bool): (r: GenState)
    ensures r.profile == st.profile && r.history == st.history
    ensures connected ==> r.hasKey && r.errorMsg.None?
    ensures !connected ==>
      r.hasKey == st.hasKey && r.errorMsg == Some("Failed to connect API Key. Please try again.")
  {
    if connected then st.(hasKey := true, errorMsg := None)
    else st.(errorMsg := Some("Failed to connect API Key. Please try again."))
  }

  datatype Mode = Clone | PromptOnly

  /** The form as `handleGenerate` reads it. Images are their base64 text. */
  datatype GenerateRequest = GenerateRequest(
    mode: Mode,
    inspiration: Option<string>,
    userImage: Option<string>,
    prompt: string,
    quality: Quality,
    aspectRatio: string)

  /** Clone mode needs both images; prompt mode needs the user's photo and a
      prompt that is not blank. */
  predicate InputsComplete(req: GenerateRequest) {
    match req.mode
    case Clone => req.inspiration.Some? && req.userImage.Some?
    case PromptOnly => req.userImage.Some? && Trim(req.prompt) != []
  }

  /** The message of the first failed input check. */
  function InputError(req: GenerateRequest): (r: Option<string>)
    ensures r.None? <==> InputsComplete(req)
    ensures req.mode == Clone && (req.inspiration.None? || req.userImage.None?) ==>
      r == Some("Please upload both an inspiration thumbnail and your photo.")
    ensures req.mode == PromptOnly && req.userImage.None? ==> r == Some("Please upload your photo.")
    ensures req.mode == PromptOnly && req.userImage.Some? && Trim(req.prompt) == [] ==>
      r == Some("Please describe the thumbnail you want to create.")
  {
    match req.mode
    case Clone =>
      if req.inspiration.None? || req.userImage.None?
      then Some("Please upload both an inspiration thumbnail and your photo.")
      else None
    case PromptOnly =>
      if req.userImage.None? then Some("Please upload your photo.")
      else if Trim(req.prompt) == [] then Some("Please describe the thumbnail you want to create.")
      else None
  }

  /** The history entry for a generated image. */
  function NewItem(req: GenerateRequest, url: string, idClock: int, stampClock: int): (item: HistoryItem)
    ensures item.id == IntToString(idClock) && item.imageUrl == url && item.timestamp == stampClock
    ensures item.inspirationImage == (if req.mode == Clone then req.inspiration else None)
    ensures req.prompt != "" ==> item.prompt == req.prompt
    ensures req.prompt == "" ==> item.prompt == (if req.mode == Clone then "Style Copy" else "Prompt Generation")
    ensures item.quality == Some(req.quality) && item.filters == Some(Catalog.DefaultFilters)
    ensures item.videoUrl.None? && item.analysis.None? && item.metadata.None?
  {
    HistoryItem(
      IntToString(idClock), url,
      if req.mode == Clone then req.inspiration else None,
      if req.prompt != "" then req.prompt else if req.mode == Clone then "Style Copy" else "Prompt Generation",
      stampClock, req.aspectRatio, None, Some(req.quality), None, None, Some(Catalog.DefaultFilters))
  }

  const KeyNotFound: string := "Requested entity was not found"

  /** `handleGenerate()`. `connected` is the key picker's answer when no key is
      set; `idClock` and `stampClock` are the two clock readings for the new item. */
  function HandleGenerate(
    st: GenState, req: GenerateRequest, connected: bool,
    outcome: Outcome<string>, idClock: int, stampClock: int): (r: GenState)
    ensures !st.hasKey ==> r == HandleConnect(st, connected)
    ensures st.hasKey && !InputsComplete(req) ==> r == st.(errorMsg := InputError(req))
    ensures outcome.Threw? ==> r.profile == st.profile && r.history == st.history
    ensures var cost := GetCurrentCost(req.quality);
      st.hasKey && InputsComplete(req) && st.profile.credits < cost ==>
        r == st.(dashboardOpen := true,
                 errorMsg := Some("Insufficient credits. Requires " + IntToString(cost) + " credits."))
    ensures var cost := GetCurrentCost(req.quality);
      st.hasKey && InputsComplete(req) && st.profile.credits >= cost && outcome.Returned? ==>
        && r.profile.credits == st.profile.credits - cost
        && r.profile.totalGenerations == st.profile.totalGenerations + 1
        && r.history == [NewItem(req, outcome.value, idClock, stampClock)] + st.history
        && r.selectedId == Some(IntToString(idClock))
        && r.errorMsg.None?
    ensures (st.hasKey && InputsComplete(req) && st.profile.credits >= GetCurrentCost(req.quality)
             && outcome.Threw?) ==>
        && (Contains(outcome.message, KeyNotFound) ==>
              !r.hasKey && r.errorMsg == Some("API Key invalid or expired. Please reconnect."))
        && (!Contains(outcome.message, KeyNotFound) ==>
              r.hasKey && r.errorMsg == Some("Failed to generate thumbnail. Credits refunded."))
  {
    if !st.hasKey then HandleConnect(st, connected)
    else if !InputsComplete(req) then st.(errorMsg := InputError(req))
    else
      var cost := GetCurrentCost(req.quality);
      var charged := DeductCredits(st, cost);
      if !charged.ok then
        charged.state.(errorMsg := Some("Insufficient credits. Requires " + IntToString(cost) + " credits."))
      else
        var st1 := charged.state.(errorMsg := None);
        match outcome
        case Returned(url) =>
          var item := NewItem(req, url, idClock, stampClock);
          st1.(history := [item] + st1.history, selectedId := Some(item.id))
        case Threw(msg) =>
          var refunded := st1.profile.(credits := st1.profile.credits + cost,
                                       totalGenerations := st1.profile.totalGenerations - 1);
          if Contains(msg, KeyNotFound)
          then st1.(profile := refunded, hasKey := false,
                    errorMsg := Some("API Key invalid or expired. Please reconnect."))
          else st1.(profile := refunded, errorMsg := Some("Failed to generate thumbnail. Credits refunded."))
  }

  /** A generation is charged only when a key is set, the inputs are complete,
      the balance covers the cost and the AI call returns. */
  lemma GenerateChargesOnlyOnSuccess(
    st: GenState, req: GenerateRequest, connected: bool,
    outcome: Outcome<string>, idClock: int, stampClock: int)
    ensures var r := HandleGenerate(st, req, connected, outcome, idClock, stampClock);
      r.profile != st.profile <==>
        st.hasKey && InputsComplete(req) && st.profile.credits >= GetCurrentCost(req.quality) && outcome.Returned?
  {
  }

  /** `history.find(i => i.id === selectedId)`. */
  function SelectedItem(st: GenState): (r: Option<HistoryItem>)
    ensures st.selectedId.None? ==> r.None?
    ensures st.selectedId.Some? ==> r == History.FindById(st.history, st.selectedId.value)
  {
    if st.selectedId.None? then None else History.FindById(st.history, st.selectedId.value)
  }

  /** What a paid action on the selected item does once its credits are
      taken: patch every item with that id with what the call returned, or
      report `failure` and refund `cost` — with the counted generation too
      when `refundGeneration` holds. */
  function Settle<T>(
    st: GenState, itemId: string, cost: int, outcome: Outcome<T>,
    patchOf: T -> History.HistoryPatch, failure: string, refundGeneration: bool): (r: GenState)
    ensures outcome.Returned? ==>
      r == st.(history := History.PatchId(st.history, itemId, patchOf(outcome.value)))
    ensures outcome.Threw? ==>
      && r.history == st.history
      && r.errorMsg == Some(failure)
      && r.profile.credits == st.profile.credits + cost
      && r.profile.plan == st.profile.plan
      && r.profile.totalGenerations == st.profile.totalGenerations - (if refundGeneration then 1 else 0)
  {
    match outcome
    case Returned(v) =>
      st.(history := History.PatchId(st.history, itemId, patchOf(v)))
    case Threw(_) =>
      st.(errorMsg := Some(failure),
          profile := st.profile.(
            credits := st.profile.credits + cost,
            totalGenerations := st.profile.totalGenerations - (if refundGeneration then 1 else 0)))
  }

  /** A paid action on the selected item from start to end: refused and the
      dashboard opened when the balance is short; otherwise charged once, and
      either the item patched with the cost kept, or the cost given back —
      the counted generation too when `refundGeneration` holds. */
  function ChargeThenSettle<T>(
    st: GenState, itemId: string, cost: int, outcome: Outcome<T>,
    patchOf: T -> History.HistoryPatch, failure: string, refundGeneration: bool): (r: GenState)
    ensures st.profile.credits < cost ==> r == st.(dashboardOpen := true)
    ensures st.profile.credits >= cost && outcome.Returned? ==>
      && r.history == History.PatchId(st.history, itemId, patchOf(outcome.value))
      && r.profile.credits == st.profile.credits - cost
      && r.profile.totalGenerations == st.profile.totalGenerations + 1
    ensures st.profile.credits >= cost && outcome.Threw? ==>
      && r.history == st.history
      && r.errorMsg == Some(failure)
      && r.profile == st.profile.(totalGenerations :=
           st.profile.totalGenerations + (if refundGeneration then 0 else 1))
  {
    var charged := DeductCredits(st, cost);
    if !charged.ok then charged.state
    else Settle(charged.state, itemId, cost, outcome, patchOf, failure, refundGeneration)
  }

  /** `{ videoUrl }`, `{ analysis }` and `{ metadata }` as updates of a history item. */
  function VideoPatch(url: string): History.HistoryPatch { History.HistoryPatch(Some(url), None, None, None) }
  function AnalysisPatch(a: AnalysisResult): History.HistoryPatch { History.HistoryPatch(None, Some(a), None, None) }
  function MetadataPatch(m: MetadataResult): History.HistoryPatch { History.HistoryPatch(None, None, Some(m), None) }

  /** `handleGenerateVideo()`. */
  function HandleGenerateVideo(st: GenState, outcome: Outcome<string>): (r: GenState)
    ensures SelectedItem(st).None? ==> r == st
    ensures outcome.Threw? ==> r.profile == st.profile && r.history == st.history
    ensures SelectedItem(st).Some? && st.profile.credits < Catalog.CreditCost(VideoGeneration) ==>
      r == st.(dashboardOpen := true)
    ensures (SelectedItem(st).Some? && st.profile.credits >= Catalog.CreditCost(VideoGeneration)
             && outcome.Returned?) ==>
        && r.profile.credits == st.profile.credits - 50
        && r.profile.totalGenerations == st.profile.totalGenerations + 1
        && r.history == History.PatchId(st.history, SelectedItem(st).value.id, VideoPatch(outcome.value))
  {
    match SelectedItem(st)
    case None => st
    case Some(item) =>
      assert Catalog.CreditCost(VideoGeneration) == 50;
      ChargeThenSettle(st, item.id, Catalog.CreditCost(VideoGeneration), outcome, VideoPatch,
                       "Failed to generate video. Credits refunded.", true)
  }

  /** `handleAnalysis()`: an item that already has an audit is not charged again. */
  function HandleAnalysis(st: GenState, outcome: Outcome<AnalysisResult>): (r: GenState)
    ensures SelectedItem(st).None? ==> r == st
    ensures SelectedItem(st).Some? && SelectedItem(st).value.analysis.Some? ==> r == st
    ensures (SelectedItem(st).Some? && SelectedItem(st).value.analysis.None?
             && st.profile.credits < Catalog.CreditCost(Audit)) ==> r == st.(dashboardOpen := true)
    ensures (SelectedItem(st).Some? && SelectedItem(st).value.analysis.None?
             && st.profile.credits >= Catalog.CreditCost(Audit)) ==>
        && r.profile.totalGenerations == st.profile.totalGenerations + 1
        && (outcome.Threw? ==> r.profile.credits == st.profile.credits && r.history == st.history)
        && (outcome.Returned? ==>
              && r.profile.credits == st.profile.credits - 5
              && r.history == History.PatchId(st.history, SelectedItem(st).value.id, AnalysisPatch(outcome.value)))
  {
    match SelectedItem(st)
    case None => st
    case Some(item) =>
      if item.analysis.Some? then st
      else
        assert Catalog.CreditCost(Audit) == 5;
        ChargeThenSettle(st, item.id, Catalog.CreditCost(Audit), outcome, AnalysisPatch,
                         "Failed to analyze thumbnail. Credits refunded.", false)
  }

  /** `handleMetadataGeneration()`: an item that already has metadata is not charged again. */
  function HandleMetadataGeneration(st: GenState, outcome: Outcome<MetadataResult>): (r: GenState)
    ensures SelectedItem(st).None? ==> r == st
    ensures SelectedItem(st).Some? && SelectedItem(st).value.metadata.Some? ==> r == st
    ensures (SelectedItem(st).Some? && SelectedItem(st).value.metadata.None?
             && st.profile.credits < Catalog.CreditCost(MetadataGeneration)) ==> r == st.(dashboardOpen := true)
    ensures (SelectedItem(st).Some? && SelectedItem(st).value.metadata.None?
             && st.profile.credits >= Catalog.CreditCost(MetadataGeneration)) ==>
        && r.profile.totalGenerations == st.profile.totalGenerations + 1
        && (outcome.Threw? ==> r.profile.credits == st.profile.credits && r.history == st.history)
        && (outcome.Returned? ==>
              && r.profile.credits == st.profile.credits - 5
              && r.history == History.PatchId(st.history, SelectedItem(st).value.id, MetadataPatch(outcome.value)))
  {
    match SelectedItem(st)
    case None => st
    case Some(item) =>
      if item.metadata.Some? then st
      else
        assert Catalog.CreditCost(MetadataGeneration) == 5;
        ChargeThenSettle(st, item.id, Catalog.CreditCost(MetadataGeneration), outcome, MetadataPatch,
                         "Failed to generate metadata. Credits refunded.", false)
  }

  /** Thumbnail and video failures give the whole profile back; audit and
      metadata failures give the credits back but keep the generation counted. */
  lemma RefundRules(st: GenState, msg: string)
    requires SelectedItem(st).Some?
    requires SelectedItem(st).value.analysis.None? && SelectedItem(st).value.metadata.None?
    requires st.profile.credits >= 50
    ensures HandleGenerateVideo(st, Threw(msg)).profile == st.profile
    ensures HandleAnalysis(st, Threw(msg)).profile
         == st.profile.(totalGenerations := st.profile.totalGenerations + 1)
    ensures HandleMetadataGeneration(st, Threw(msg)).profile
         == st.profile.(totalGenerations := st.profile.totalGenerations + 1)
  {
  }

  /** `handleDelete(id)`. */
  function HandleDelete(st: GenState, id: string): (r: GenState)
    ensures r.history == History.Without(st.history, id)
    ensures st.selectedId != Some(id) ==> r.selectedId == st.selectedId
    ensures st.selectedId == Some(id) ==>
      r.selectedId == (if r.history == [] then None else Some(r.history[0].id))
    ensures r.profile == st.profile
  {
    var h := History.Without(st.history, id);
    if st.selectedId == Some(id) then st.(history := h, selectedId := if h == [] then None else Some(h[0].id))
    else st.(history := h)
  }
}
