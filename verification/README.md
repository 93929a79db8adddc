# Thumbnail generator credits and entitlements, in Dafny

This project models the bookkeeping core of a YouTube-thumbnail generator.
Every piece below is written as immutable datatypes and pure functions, and
the properties are proved about them.

- **Server credit ledger.** An in-memory map from user id to session record,
  with deduct, refund, add, update and validate operations driven by a fixed
  cost table.
- **Session token.** `base64url(header).base64url(payload).signature`, the
  shape of the JWS Compact Serialization (section 7.1 of RFC 7515) with HS256
  (section 3.2 of RFC 7518). Base64url follows section 5 of RFC 4648 without
  padding and is written out concretely. The HMAC and the JSON
  encoder/parser are function-valued parameters.
- **Client profile hook.** Credits, plan, generation counter, plan priority,
  upgrade/downgrade decisions, `changePlan` with its capped billing history,
  and cancel/reactivate.
- **Generator screen.** Its own deduct, which also counts a generation. Also
  the input checks before a generation, and the refunds each handler gives
  when the AI call fails.
- **Payment webhook.** A pure function from the request, configuration,
  signature verdict and profile table to the response and the new table.
- **History, batch selection and prompt templates.** Sequence and set
  operations.
- **Parsers and validators:**
  - splitting a data URL with the greedy regex;
  - stripping code fences from model replies;
  - the quality and aspect-ratio mappings;
  - the text instruction of a thumbnail request;
  - the fallbacks when an AI call fails;
  - the email validator and form;
  - the upload validator;
  - the base64 size helpers.

There is one module per file:
- `Wrappers`: `Option` and `Outcome` (returned or threw).
- `Text`: JavaScript string built-ins — trim, split/join, `includes`,
  global literal replace, ASCII lower-casing, and number rendering.
- `Types` and `Catalog`: the records and constants.
- `Base64Url`, `CreditToken` and `CreditLedger`: the server.
- `UserProfile`, `Generator`, `History`, `Batch`, `Templates` and `Lists`:
  the client state.
- `Webhook`.
- `Gemini`, `Email`, `Uploader` and `FileSize`: the validators.

## Model

| member | source | states |
|---|---|---|
| CreditLedger.ServerCostsMatchClient | server/creditValidation.ts:20-27 | The server's cost table charges the same as the client's `CREDIT_COSTS` for every operation. |
| Base64Url.Encode | server/creditValidation.ts:36-37 | The text uses only the URL-safe alphabet and has no padding: its length is the ceiling of 4n/3 for n bytes. |
| Base64Url.Decode | server/creditValidation.ts:61 | Accepts only URL-safe alphabet text whose length is not 1 more than a multiple of 4. |
| Base64Url.DecodeEncode | server/creditValidation.ts:35-43 | Decoding the unpadded base64url text of any byte string gives back those bytes. |
| Base64Url.EncodeInjective | server/creditValidation.ts:35-43 | Distinct byte strings never share a base64url text. |
| Base64Url.EncodeHasNoDot | server/creditValidation.ts:35-43 | Base64url output never contains `.`, so the token separators are the only dots. |
| CreditToken.GenerateToken | server/creditValidation.ts:35-43 | A token has exactly two dots. Splitting it at them gives the encoded header, the encoded JSON payload, and the MAC of `header.body`. |
| CreditToken.ThreeSegments | server/creditValidation.ts:50-53 | Three dot-free segments joined by dots split back into exactly those three segments. |
| CreditToken.VerifyToken | server/creditValidation.ts:48-72 | An accepted token has three segments and a signature equal to the MAC of the first two. It decodes to the returned payload, which is not expired, where `IsExpired` (line 64) means `expiresAt` ≠ 0 and `now > expiresAt`. |
| CreditToken.VerifyGenerated | server/creditValidation.ts:35-72 | When the JSON round trip holds, a generated token verifies to its payload unless expired, and to nothing once expired. The comparison is a strict `>`, and zero means "never expires". |
| CreditToken.ForgedSignatureRejected | server/creditValidation.ts:54-59 | Any signature segment other than the MAC of `header.body` is refused. |
| CreditToken.WrongShapeRejected | server/creditValidation.ts:50-51 | A text without exactly two dots is refused. |
| CreditLedger.CreateSession | server/creditValidation.ts:77-91 | The new record has the fresh id and the given credits (10 by default). It is on the free plan with zero generations, expires 24 h after the second clock reading, and is stored under its id without touching other users. The token is generated from it. |
| CreditLedger.GetSession | server/creditValidation.ts:96-103 | Yields a session exactly when the token verifies. The stored record of that user wins over the token's payload. |
| CreditLedger.CreatedSessionFound | server/creditValidation.ts:77-103 | A freshly created session is found again through its own token until it expires. |
| CreditLedger.UpdateSessionCredits | server/creditValidation.ts:108-115 | Succeeds exactly for a stored user. It sets only that user's credits, and changes nothing on failure. |
| CreditLedger.DeductCredits | server/creditValidation.ts:120-145 | An unknown user gets "Session not found" and 0. Short credits give the insufficiency message with the current balance and leave the store unchanged. Otherwise credits drop by exactly the cost, generations rise by one, and other users are untouched. |
| CreditLedger.RefundCredits | server/creditValidation.ts:150-160 | Adds back exactly the cost and sets generations to `max(0, g-1)`. Fails and changes nothing for an unknown user. |
| CreditLedger.DeductThenRefundRestores | server/creditValidation.ts:120-160 | A successful deduction followed by the refund of the same operation restores the store exactly. |
| CreditLedger.AddCredits | server/creditValidation.ts:165-176 | Adds exactly `amount`, and changes the plan only when a new plan is given. |
| CreditLedger.UnknownUserUnchanged | server/creditValidation.ts:108-176 | For an unknown user, deduct, refund, add and update all report failure and leave the store unchanged. |
| CreditLedger.GenerationsStayNonNegative | server/creditValidation.ts:120-176 | No mutator drives a generation counter below zero. |
| CreditLedger.CreateKeepsGenerationsNonNegative | server/creditValidation.ts:77-91 | Creating a session keeps every generation counter non-negative. |
| CreditLedger.ValidateCredits | server/creditValidation.ts:181-202 | Valid exactly when `getSession` yields a session with enough credits. The error distinguishes an invalid session from too few credits, and the store is only read. |
| CreditLedger.ValidateAgreesWithDeduct | server/creditValidation.ts:181-202 | For a stored user, validation answers exactly what a deduction would. |
| Catalog.FindPlan | hooks/useUserProfile.ts:168 | `PLANS.find` by id: a found entry is in the list and has the id, and nothing is found exactly when no entry has it. |
| Catalog.PlansComplete | constants/index.ts:23-53 | Every plan has exactly one catalog entry, so lookup by id never fails. |
| Catalog.QualityConfigMatchesCosts | constants/index.ts:92-96 | The quality table charges 10, 15 and 25, equal to the cost-table entries billed for those qualities. |
| Catalog.DefaultFiltersInRange | constants/index.ts:64-74 | Each default filter value lies in its range. |
| Catalog.DefaultSubscription | constants/index.ts:159-166 | Trialing on the free plan, not cancelling, empty history, with the period ending 30 days after the clock reading. |
| UserProfile.GetCreditCost | hooks/useUserProfile.ts:23-32 | The cost of a quality is the quality table's cost. |
| UserProfile.GetCreditCostBillsOperation | hooks/useUserProfile.ts:23-32 | That cost is the cost-table entry of the matching thumbnail operation. |
| UserProfile.PlanPriorityOrder | hooks/useUserProfile.ts:55-62 | `PlanPriority` (`getPlanPriority`) orders free < creator < agency, and equal priority means the same plan. |
| UserProfile.DeductCredits | hooks/useUserProfile.ts:81-104 | Succeeds exactly when `HasCredits` (`hasCredits`, lines 81-86: credits cover the cost) holds. On success credits drop by the cost; on refusal the profile is unchanged. Plan and generation counter are never touched. |
| UserProfile.AddCredits | hooks/useUserProfile.ts:109-117 | Credits rise by exactly `amount`, and nothing else changes. |
| UserProfile.DeductThenAddRestores | hooks/useUserProfile.ts:92-117 | Adding back what a successful deduction took restores the profile. |
| UserProfile.UpgradePlan | hooks/useUserProfile.ts:122-131 | Sets the plan and adds exactly `credits`. |
| UserProfile.IncrementGenerations | hooks/useUserProfile.ts:136-141 | The counter rises by one, and nothing else changes. |
| UserProfile.UpgradeDowngradeExclusive | hooks/useUserProfile.ts:146-161 | For `CanUpgrade` and `CanDowngrade` (`canUpgrade`, `canDowngrade`): a move is never both an upgrade and a downgrade, and the current plan is neither. Every other plan is one of the two, and upgrading from a to b is downgrading from b to a. |
| UserProfile.PlanCreditsIncreaseWithPriority | constants/index.ts:23-53 | Monthly credits strictly increase with plan priority. |
| UserProfile.BillingEntry | hooks/useUserProfile.ts:175-183 | The entry has id `bill_<now>`, the plan's price, status paid, and says "Upgrade to" or "Downgrade to" the plan's name. |
| UserProfile.ChangePlan | hooks/useUserProfile.ts:166-204 | Credits grow by the plan's credits exactly on an upgrade and are kept otherwise. The status is trialing iff the new plan is free. The period ends 30 days later, the flag is cleared, and the new entry is prepended to at most the 9 previous ones. |
| UserProfile.ChangePlanKeepsCap | hooks/useUserProfile.ts:175-193 | The billing history never exceeds 10 entries, and the newest entry bills the target plan's price. |
| UserProfile.UpgradeThenDowngradeKeepsCredits | hooks/useUserProfile.ts:166-204 | Upgrading and then moving back to the original plan restores the plan and keeps the credits the upgrade granted. |
| UserProfile.CancelSubscription | hooks/useUserProfile.ts:209-214 | Sets the cancel flag, and nothing else changes. |
| UserProfile.ReactivateSubscription | hooks/useUserProfile.ts:219-224 | Clears the cancel flag whatever the period end, and nothing else changes. |
| UserProfile.CancelThenReactivate | hooks/useUserProfile.ts:209-224 | Cancelling then reactivating restores a non-cancelling subscription, and both operations are idempotent. |
| UserProfile.ChangeToFreeIsDefault | hooks/useUserProfile.ts:166-204 | Moving to the free plan gives, apart from the billing history, exactly the default subscription started at that moment. |
| Generator.GetCurrentCost | components/ThumbnailGenerator.tsx:187-194 | 10 for standard, 15 for high, 25 for ultra, which agrees with the profile hook. |
| Generator.DeductCredits | components/ThumbnailGenerator.tsx:196-207 | A refusal opens the dashboard and changes nothing else. A success takes exactly `amount` and counts one generation. |
| Generator.TwoLedgersDiffer | components/ThumbnailGenerator.tsx:196-207 | The same successful charge counts a generation here but not in the profile hook, and the balances agree. |
| Generator.HandleUpgrade | components/ThumbnailGenerator.tsx:174-185 | Unconfirmed does nothing. Confirmed sets the plan and adds exactly the plan's credits. |
| Generator.HandleUpgradeIsUpgradePlan | components/ThumbnailGenerator.tsx:174-185 | A confirmed purchase is the profile hook's `upgradePlan` with the plan's id and credits. |
| Generator.HandleConnect | components/ThumbnailGenerator.tsx:163-172 | A successful key pick sets the key and clears the error. A failed one keeps the key state and sets the connection error. Profile and history are untouched. |
| Generator.InputError | components/ThumbnailGenerator.tsx:252-267 | No error exactly when `InputsComplete` holds: clone needs both images, prompt mode needs the photo and a non-blank prompt. Each failed check has its own message. A clone request missing either image gets "Please upload both an inspiration thumbnail and your photo.". A prompt-mode request without the photo gets "Please upload your photo.". One with the photo but a blank prompt gets "Please describe the thumbnail you want to create.". |
| Generator.NewItem | components/ThumbnailGenerator.tsx:306-318 | The new entry's id, image, timestamp, inspiration (clone only), prompt (or a mode label when empty), quality and default filters. |
| Text.IntToString | components/ThumbnailGenerator.tsx:307 | `Date.now().toString()` and the other integer renderings: the digits read back as the number, with a leading `-` exactly for a negative number and no leading zero except for zero itself. |
| Text.IntToStringInjective | components/ThumbnailGenerator.tsx:146 | Distinct clock readings render as distinct id strings. |
| Generator.HandleGenerate | components/ThumbnailGenerator.tsx:245-334 | No key runs the connect flow. Incomplete inputs set the error without charging, and short credits open the dashboard. A success charges the cost, counts a generation and prepends the selected item. A failure refunds cost and counter, and a "not found" message also drops the key. |
| Generator.GenerateChargesOnlyOnSuccess | components/ThumbnailGenerator.tsx:245-334 | The profile changes exactly when a key is set, the inputs are complete, the credits suffice and the call returned. Every refusal and every failed call leaves it as it was. |
| Generator.SelectedItem | components/ThumbnailGenerator.tsx:346-349 | The item whose id is selected, if any. |
| Generator.ChargeThenSettle | components/ThumbnailGenerator.tsx:346-425 | The charge-then-call pattern of the three paid item actions. Short credits refuse and open the dashboard. Otherwise a return patches every item with the id and keeps the cost; a failure leaves the history alone, reports the message and gives the cost back, plus the counted generation when asked. |
| Generator.HandleGenerateVideo | components/ThumbnailGenerator.tsx:346-373 | No selection does nothing. Short credits open the dashboard. A success attaches the video after charging 50. A failure gives the whole profile back. |
| Generator.HandleAnalysis | components/ThumbnailGenerator.tsx:375-399 | An item already audited is not charged again. A failure restores credits but keeps the counted generation. |
| Generator.HandleMetadataGeneration | components/ThumbnailGenerator.tsx:401-425 | An item that already has metadata is not charged again. A failure restores credits but keeps the counted generation. |
| Generator.RefundRules | components/ThumbnailGenerator.tsx:346-425 | A failed video restores the profile exactly. A failed audit or metadata run restores credits and leaves the counter one higher. |
| Generator.HandleDelete | components/ThumbnailGenerator.tsx:446-453 | Removes every item with that id. Deleting the selected item moves the selection to the first remaining item or to none. The profile is untouched. |
| Webhook.ProductCredits | api/stripe/webhook.ts:11-14 | 1000 for creator, 5000 for agency, 0 for any other or missing plan id. |
| Webhook.Single | api/stripe/webhook.ts:62-66 | A row is found exactly when one profile carries the email, and it is that profile. |
| Webhook.SingleIsUnique | api/stripe/webhook.ts:62-66 | When exactly one profile carries the email, `.single()` returns that profile. |
| Webhook.ApplyCheckout | api/stripe/webhook.ts:68-78 | Only rows with the user's id change: plan set (kept when the plan id is absent), credits = user's credits + product credits, customer recorded. |
| Webhook.ApplyCancellation | api/stripe/webhook.ts:83-94 | Every row of that customer moves to the free plan, and nothing else changes. |
| Webhook.Apply | api/stripe/webhook.ts:55-95 | The table keeps its length, ids and emails. Without a store, or for any other event, it is unchanged. |
| Webhook.Handle | api/stripe/webhook.ts:27-97 | 405 for non-POST, 500 without a secret, 400 without a signature, and 400 "Webhook Error: ..." on a failed check; none of these changes the table. 200 exactly when all checks pass, with the event applied. |
| Webhook.CheckoutUpgradesMatchedProfile | api/stripe/webhook.ts:56-79 | For the one profile with the email: credits + product credits, plan set, customer recorded. |
| Webhook.CheckoutWithoutMatchIsNoOp | api/stripe/webhook.ts:61-68 | With no store, no email, or not exactly one matching profile, a checkout changes nothing. |
| Webhook.CancellationKeepsCredits | api/stripe/webhook.ts:83-94 | With a store configured, a cancellation touches no balance and moves the customer's rows to free. |
| Webhook.CheckoutKeepsEmails | api/stripe/webhook.ts:70-77 | The update never writes emails, so the number of profiles per email is unchanged. |
| Webhook.RedeliveryGrantsTwice | api/stripe/webhook.ts:55-97 | The same checkout event delivered twice grants the plan's credits twice: there is no deduplication. |
| History.FindById | hooks/useHistory.ts:41-50 | The first item with the id; absent exactly when no item carries it. |
| History.Initial | hooks/useHistory.ts:25-27 | The first item is selected when there is one, and the filters start at their defaults. |
| History.SetSelectedId | hooks/useHistory.ts:41-50 | The selection is set. The filters follow the selected item (or the defaults) only for a non-empty id. |
| History.AddHistoryItem | hooks/useHistory.ts:55-65 | The item comes first, followed by the previous items in order, capped at 50. It becomes the selection and its filters become current. |
| History.RemoveHistoryItem | hooks/useHistory.ts:70-87 | Drops every item with the id. Removing the selected item selects the first remaining one and its filters, or selects none and keeps the current filters. Any other selection is kept. |
| History.RemoveKeepsOthers | hooks/useHistory.ts:70-74 | The remaining list is a subsequence of the old one and holds exactly the items with other ids. |
| History.UpdateHistoryItem | hooks/useHistory.ts:92-99 | Only items with the id change, each to the patched item. Length, order and ids are kept. |
| History.MergeFilters | hooks/useHistory.ts:104-120 | Each field of the patch overrides the current one, and absent fields are kept. |
| History.UpdateFilters | hooks/useHistory.ts:104-120 | The merged filters become current and are written to the selected item only. |
| History.EmptyFilterPatchKeepsFilters | hooks/useHistory.ts:104-120 | An empty patch leaves the current filters as they were. |
| History.ResetFilters | hooks/useHistory.ts:125-134 | Current filters and the selected item's filters become the defaults. |
| History.ClearHistory | hooks/useHistory.ts:139-143 | Empty list, no selection, default filters. |
| History.SelectionStaysValid | hooks/useHistory.ts:55-143 | Every operation other than an explicit `setSelectedId` (which stores any id it is given) keeps the selection either empty or the id of a listed item. The initial state satisfies this too. |
| Batch.SelectAllItems | hooks/useBatchOperations.ts:72-74 | Exactly the set of ids in the history. |
| Batch.ToggleSelectionMode | hooks/useBatchOperations.ts:44-52 | Flips the mode, and leaving selection mode clears the selection. |
| Batch.ToggleSelect | hooks/useBatchOperations.ts:57-67 | Flips the membership of the id and of no other id. |
| Batch.ToggleCounts | hooks/useBatchOperations.ts:37-67 | `SelectedCount` (`selectedIds.size`) goes up by one when an unselected id is toggled, and `HasSelection` then holds. It goes down by one when a selected id is toggled, and `HasSelection` then holds iff another id stays selected. |
| Batch.ToggleTwice | hooks/useBatchOperations.ts:57-67 | Toggling the same id twice restores the state. |
| Batch.DeselectAll | hooks/useBatchOperations.ts:79-81 | Nothing remains selected, and the mode is kept. |
| Batch.InvertSelection | hooks/useBatchOperations.ts:86-96 | The history ids that were not selected. |
| Batch.InvertTwice | hooks/useBatchOperations.ts:86-96 | Inverting twice yields the old selection intersected with the history ids, and a selection and its inverse are disjoint. |
| Batch.IdCount | hooks/useBatchOperations.ts:37-39 | There are at most as many ids as items, and equally many exactly when ids are distinct. |
| Batch.SelectAllFlagAfterSelectAll | hooks/useBatchOperations.ts:37-39 | After "select all", the all-selected flag `SelectAllFlag` (`history.length > 0 && selectedCount === history.length`) holds iff the history is non-empty and its ids are distinct. |
| Batch.BatchDelete | hooks/useBatchOperations.ts:101-110 | Returns the selected items and keeps the unselected ones, then clears the selection and leaves selection mode. |
| Batch.BatchDeletePartitions | hooks/useBatchOperations.ts:101-103 | Both parts keep history order, no item is in both, and together they are the whole history as a multiset. |
| Templates.SaveTemplate | hooks/useTemplates.ts:33-53 | A no-op when the trimmed name or prompt is empty. Otherwise it appends one template with the trimmed name and prompt, keeps the existing ones, and resets the form. |
| Templates.DeleteTemplate | hooks/useTemplates.ts:68-73 | No remaining template carries the id, and the form is untouched. |
| Templates.DeleteKeepsOthers | hooks/useTemplates.ts:68-73 | The remaining templates are a subsequence holding exactly those with other ids. |
| Templates.SaveThenDelete | hooks/useTemplates.ts:33-73 | When the clock reading is not already a template id, deleting that id right after a save gives back the template list unchanged. This holds both when the save appended a template and when it was a no-op. |
| Templates.LoadedTemplateResaves | hooks/useTemplates.ts:33-63 | Loading a saved template and saving the loaded prompt under any non-blank name appends one template with the very same prompt, because a stored prompt is already trimmed. Saved under the template's own name, the copy equals the original except for its id. |
| Gemini.LastCut | services/geminiService.ts:7 | Finds the largest cut point where a `;base64,` leaves both captures non-empty, or reports that none exists. |
| Gemini.CleanBase64 | services/geminiService.ts:6-19 | On a regex match the input is `data:` + mime + `;base64,` + data, with both parts non-empty and the mime part as long as possible. Otherwise the result is `image/jpeg` with the whole input. |
| Gemini.CleanDataUrl | services/geminiService.ts:6-13 | `data:<m>;base64,<d>` with d free of `;` and neither part containing a line break splits back into m and d. |
| Gemini.GreedyMimeType | services/geminiService.ts:7 | With two `;base64,` markers, the mime type runs to the last one. |
| Gemini.RawBase64FallsBack | services/geminiService.ts:14-18 | Input without the `data:` prefix is passed through whole as JPEG data. |
| Gemini.LineBreakFallsBack | services/geminiService.ts:7 | A line break anywhere defeats the match. |
| Gemini.GeneratedImageRoundTrip | services/geminiService.ts:324-330 | The data URL built from a generated image's payload splits back into `image/png` and that payload. |
| Gemini.FirstImage | services/geminiService.ts:324-332 | Over the first candidate's part list: the first part with inline data, as a PNG data URL. If no part has inline data, the call throws "No image generated.". |
| Gemini.StripFences | services/geminiService.ts:62-65 | No ```` ``` ```` is left anywhere in the result, and neither end is whitespace. The result is the reply's characters with some deleted and the rest in their order. Which characters are kept is stated by the lemmas below for the reply shapes they cover. |
| Gemini.BacktickFreeIsTrim | services/geminiService.ts:64 | A reply without backticks is only trimmed. |
| Gemini.FencedBlockKeepsRest | services/geminiService.ts:64 | For backtick-free `a`, `b` and `c`, where `c` does not start with `json`, the reply `a` + ```` ```json ```` + `b` + ```` ``` ```` + `c` loses exactly its two fence markers and is then trimmed. |
| Gemini.RemoveFenceLeavesNone | services/geminiService.ts:64 | `replace(/```/g, '')` leaves no three backticks in a row, including where text on the two sides of a removed fence meets. |
| Gemini.FencedPayload | services/geminiService.ts:139-141 | A payload inside a ```json fence, whitespace-padded, comes out exactly. |
| Gemini.FencedArrayExample | services/geminiService.ts:62-65 | The fenced array reply yields the bare array text. |
| Gemini.CleanReplyUnchanged | services/geminiService.ts:205-207 | A fence-free reply with no surrounding whitespace is unchanged. |
| Gemini.ParseReply | services/geminiService.ts:139-145 | Returns the parsed value exactly when the call returned and its cleaned text (or the fallback) parses. Otherwise it throws the given failure. |
| Gemini.DetectText | services/geminiService.ts:33-70 | A returned reply whose cleaned text (or `[]` when empty) parses gives exactly that parse. A throw or a parse failure gives no text. |
| Gemini.EmptyReplyDetectsNothing | services/geminiService.ts:62 | An absent or empty reply is read as `[]`. |
| Gemini.UnparsableReplyDetectsNothing | services/geminiService.ts:66-69 | A reply that fails to parse gives no text. |
| Gemini.FencedReplyDetected | services/geminiService.ts:62-65 | A fenced array reply is parsed from inside the fence. |
| Gemini.AnalyzeThumbnail | services/geminiService.ts:139-145 | Returns what the parser makes of the fence-stripped reply, with an empty reply read as `{}`, exactly when the call returned and that parses. Any other case becomes "Failed to analyze thumbnail.". |
| Gemini.GenerateMetadata | services/geminiService.ts:205-211 | Returns what the parser makes of the fence-stripped reply, with an empty reply read as `{}`, exactly when the call returned and that parses. Any other case becomes "Failed to generate metadata.". |
| Gemini.EnhancePrompt | services/geminiService.ts:72-96 | A throw or absent text gives the original prompt. Otherwise the result is the trimmed reply, or the original when the reply is blank. |
| Gemini.EnhanceNeverBlank | services/geminiService.ts:91-95 | For a non-blank prompt the answer is never blank, and a model answer is already trimmed. |
| Gemini.ImageSize | services/geminiService.ts:285-291 | 1K iff standard or missing, 2K iff high, 4K iff ultra. |
| Gemini.VideoAspect | services/geminiService.ts:344-347 | "9:16" iff the source is exactly "9:16", otherwise "16:9". |
| Gemini.VideoAspectProjection | services/geminiService.ts:344-347 | Mapping twice changes nothing, and every non-portrait ratio maps like "16:9". |
| Gemini.OrElse | services/geminiService.ts:279 | The value when non-empty, else the fallback. Empty only if both are empty. |
| Gemini.RequestDefaultsNonEmpty | services/geminiService.ts:279-352 | The prompt override, the video prompt and the aspect ratio sent are never empty. |
| Gemini.SelectTextInstruction | services/geminiService.ts:221-239 | Replacement iff the replacement text is non-empty, carrying that text and the style as given. |
| Gemini.StyleLines | services/geminiService.ts:221-227 | Empty exactly when there is no style. |
| Gemini.RenderTextInstruction | services/geminiService.ts:229-239 | Starts with the replacement heading iff it is a replacement, and with the preservation heading iff not. |
| Gemini.StyleLinesCarryStyle | services/geminiService.ts:221-227 | The style lines contain the font, colour and effect. |
| Gemini.ReplacementCarriesTextAndStyle | services/geminiService.ts:221-239 | A non-empty replacement yields the replacement heading and contains the new text, and a style adds its font, colour and effect. |
| Gemini.NoReplacementPreserves | services/geminiService.ts:236-239 | Without replacement text the instruction is the fixed preservation text, whatever style was chosen. |
| Email.ValidateEmailMatchesRegex | components/EmailCollectionModal.tsx:23-26 | The scan accepts exactly the texts of the form local@name.tld with three non-empty parts free of whitespace and `@`. |
| Email.ValidDecomposes | components/EmailCollectionModal.tsx:23-26 | A valid address has such a decomposition. |
| Email.DecomposedIsValid | components/EmailCollectionModal.tsx:23-26 | Any such decomposition passes the scan. |
| Email.HandleSubmit | components/EmailCollectionModal.tsx:28-67 | A blank address gets "Please enter your email address". A non-blank address failing the format check on the raw text gets "Please enter a valid email address". Otherwise the lower-cased trimmed address is stored and the typed one is submitted. |
| Email.PaddedAddressRefused | components/EmailCollectionModal.tsx:32-40 | Leading or trailing whitespace passes the emptiness check but is refused as invalid. |
| Email.StoredAddressValid | components/EmailCollectionModal.tsx:48-57 | The stored address is the typed one lower-cased, and is itself valid. |
| Uploader.HandleFileChange | components/ImageUploader.tsx:28-56 | No file: nothing happens. A type outside the three allowed gets the format error. An allowed type over 5 MiB gets the size error. The file is delivered exactly when it passes both checks. |
| Uploader.HandleRemove | components/ImageUploader.tsx:58-63 | Calls back with `null` and clears the error. |
| Uploader.SizeLimitInclusive | components/ImageUploader.tsx:39-42 | Exactly 5 MiB is accepted, and one byte more is refused. |
| Uploader.FormatCheckedFirst | components/ImageUploader.tsx:34-42 | A file failing both checks reports the format error and is not delivered. |
| Uploader.LimitsMatchFileConfig | components/ImageUploader.tsx:15-16 | The uploader's limits equal the shared file configuration. |
| Uploader.AcceptedUploadSplits | components/ImageUploader.tsx:44-52 | The data URL read from an accepted file splits back into its type and payload. |
| FileSize.MeasuredPart | utils/imageOptimization.ts:181 | Text without a comma is measured whole. Otherwise, with the first comma at `i` and the next comma (or the end) at `j`, it measures `s[i+1..j]` when that is non-empty and the whole text when it is empty. Every text with a comma has such cut points (`Text.SecondFieldCuts`). |
| FileSize.ThreeFieldsMeasured | utils/imageOptimization.ts:181 | For `a,b,c` with comma-free `a` and `b`, a non-empty `b` is measured, and an empty `b` means the whole text. |
| FileSize.GetBase64Size | utils/imageOptimization.ts:179-184 | The size is the ceiling of 3n/4 for the measured length n. |
| FileSize.EmptyHasNoSize | utils/imageOptimization.ts:179-184 | The empty text has size 0. |
| FileSize.SizeMonotone | utils/imageOptimization.ts:183 | A longer measured part never gives a smaller size. |
| FileSize.SizeOfWholeQuads | utils/imageOptimization.ts:183 | Four characters count as three bytes. |
| FileSize.DataUrlMeasuresPayload | utils/imageOptimization.ts:181 | For `header,payload` with no other comma, the payload is measured. |
| FileSize.FormatFileSize | utils/imageOptimization.ts:189-193 | Exact `<b> B` iff b < 1024, KB iff 1024 <= b < 1048576, and MB otherwise. |
| FileSize.ScaledFigureInRange | utils/imageOptimization.ts:191-192 | The integer quotient by the divisor is at least 1, and below 1024 for KB. It says nothing about the `toFixed` rounding. |
| FileSize.ExactLabelReadsBack | utils/imageOptimization.ts:190 | The digits of an exact label read back as the byte count. |

## Left out

- AI, payment and database calls, the network, `Date.now`, `crypto.randomUUID`, HMAC-SHA256 and `JSON.stringify`/`JSON.parse`. These are all parameters: clock readings, fresh ids, call outcomes, a `Primitives` record and parser functions. For the JSON round trip, the token lemmas require it for the one payload concerned.
- `Gemini.ParseReply` takes a parser that returns a value of the declared shape or nothing. Its `parse` parameter stands for `JSON.parse` followed by a check that the JSON has that shape. The source makes no such check: it casts the result of `JSON.parse` with `as` (services/geminiService.ts:65, 141, 207). So well-formed JSON of another shape is returned as is. An example is `{"texts":["A"]}` from `detectTextInImage`, or `[]` from `analyzeThumbnail`, which `handleAnalysis` then stores, keeping the charge. The model's parser either refuses such a reply, reading it as detecting nothing or as a failed analysis that is refunded, or maps it to a record. It cannot hold the untyped value the source passes on.
- Timing and concurrency: `setTimeout` delays, video polling and React update batching. Each handler is one atomic step. The generator checks a closed-over balance and then updates through the previous state; the model reads one state.
- localStorage persistence: state is a plain value.
- Floating point. This covers `toFixed` in the KB/MB labels (only the branch and divisor are modelled, so the rounding that prints 1048525 to 1048575 bytes as "1024.0 KB" is not), image scaling, and `Math.ceil` (modelled as the exact integer ceiling).
- Locale date formatting (`getNextBillingDate`) and the ISO date strings of billing entries: dates are the clock readings.
- `Text.ToLower` lower-cases ASCII letters only, since JavaScript's full Unicode case mapping is not modelled.
- `Gemini.RenderTextInstruction` leaves out the template's line indentation, and the large fixed prompt texts of the AI calls are not modelled.
- Strings are sequences of Unicode scalar values, not UTF-16 code units; regex `.` is modelled over those.
- `Base64Url.Decode` is a strict decoder, while Node's decoder (server/creditValidation.ts:61) is lenient. A token body whose MAC matches but which this encoder would not produce — characters outside the alphabet, or a length of 1 more than a multiple of 4 — is refused by `CreditToken.VerifyToken` and `CreditLedger.GetSession`. Node would decode what it can of such a body. The two agree on every body this server encoded (`Base64Url.DecodeEncode`).
- `Gemini.StripFences`: its exact output is proved only for backtick-free replies (`BacktickFreeIsTrim`), for one fenced block in backtick-free text (`FencedBlockKeepsRest`, `FencedPayload`), and that no fence survives in any reply. For other replies the contract does not say which characters outside the removed markers are kept, although the definition keeps them all.
- `Gemini.FirstImage` takes the first candidate's part list as given. The source indexes `response.candidates[0].content.parts` directly (services/geminiService.ts:324), so a reply with an empty `candidates` array or a first candidate without `content` throws a `TypeError` there. The call does not get "No image generated." in that case. The abstraction drops this path; the generator only inspects a failure's message for "Requested entity was not found", so either failure is refunded alike.
- `Templates.LoadTemplate` has no row of its own. It forwards `template.prompt` to the prompt field unchanged (hooks/useTemplates.ts:58-63), and its one-line contract would only restate that. What loading promises is stated through `Templates.LoadedTemplateResaves`: a stored prompt is already trimmed by `SaveTemplate`, so saving it again changes nothing.
- `History.ApplyPatch` covers the four fields the handlers update: video, analysis, metadata and filters.
- `UserProfile.ChangePlan` has an unreachable "plan not found" branch in the source. It is not modelled, because every plan has a catalog entry (`Catalog.PlansComplete`).
- Behaviour that is not in the code is not modelled. There is no webhook event deduplication (`Webhook.RedeliveryGrantsTwice` shows the consequence), no constant-time signature comparison (the check is plain equality), and no period-end check when reactivating. Invoice events and past-due handling are absent too: only two event kinds are handled.
- `hooks/useUserProfile.ts` imports `DEFAULT_SUBSCRIPTION` from `types.ts`, which does not declare it. The model uses the definition in `constants/index.ts`.
- A checkout without a customer records `None` as the customer id. A cancellation's `.eq` on the customer id is modelled as matching only rows whose recorded id equals that customer.
- UI components, the scan-text and enhance-prompt button handlers, download and export, `server/index.ts` and the `api/gemini` endpoints are left out. Their `cleanBase64` copies are identical to the one modelled.
