# AgriTech marketplace core in Dafny

This project models the core of the AgriTech backend. Farmers record
fields and harvests, have lots graded by government quality officers and
sell them: by open auction to buyers, or to the government at the minimum
support price (MSP). Buyers post requirements that farmers answer with
offers. Vendors sell or rent equipment to buyers. Every kind of account
signs in with a one-time code sent to its phone.

The model is one in-memory database, the class `Store.Db`. It has one
`seq` field per collection, and a document's id is its index. Requirements
and expenses can be deleted, so their slots are `Option`s; a deleted
document leaves an empty slot and ids are never reused. Each request
handler becomes a method on that database. The method takes the caller's
identity, the request fields and the clock as parameters. It returns the
reply the handler sends, and its postcondition states the database
afterwards. The pure parts become functions:
- eligibility checks;
- defaults;
- listing filters and orders;
- the month window;
- pagination;
- identifier formats.

Lemmas then state what the workflows promise:
- Auctions:
  - every sale's bid count equals its ledger entries;
  - amounts rise strictly and the latest bid is the highest;
  - at most one bid per sale is won;
  - the settlement sweep keeps both invariants.
  These hold while every bid comes from a buyer. Any logged-in role may
  call placeBid, and a caller without a buyer claim breaks the count
  (`Bidding.ClaimlessBidBreaksLedger`).
- Offers: every requirement's offer counter equals its live offers.
- Quality requests: each field has at most one open request, and a
  certificate number is never overwritten.
- Accounts: a one-time code cannot be replayed, and phones, emails and MSP
  crop names stay unique.

Modules follow the repository's files:
- `Bidding`, `AuctionLedger` and `AuctionSweep` model bid placement and the
  settlement job.
- `SaleListing` and `CropOutputs` model selling and harvests.
- `Orders` models equipment orders.
- `Requirements` and `Offers` model buyer requirements and farmer offers.
- `Quality` and `QualityModel` model inspection requests.
- `Farm` models fields, statistics and tasks.
- `Msps` models MSP prices.
- `Expenses` and `Calendar` model expense tracking and JavaScript local
  dates.
- `Admin` models the administrator and employee handling.
- `Auth` models the five one-time-code controllers.
- `CropCatalog` models the crop catalogue.
- `LotIds` models the lot identifiers.
- The `*Model` modules hold the document types and schema rules.
- `Sorting` and `Common` are shared definitions.

Conventions of the model:
- Time is an integer count of milliseconds.
- A date a document may lack is an `Option`, and comparing a missing date
  against anything is false, as in MongoDB.
- Money and quantities are integers.
- "Truthy" request fields follow JavaScript: an empty string and the
  number 0 count as missing.
- Random draws are parameters constrained to their ranges:
  - the six-digit one-time code;
  - the four-digit certificate suffix.
- The bcrypt comparison of the administrator password is a function
  parameter.
- Local time is a fixed offset from UTC.

Decisions about the source:
- The auction fields and the sale statuses used are the ones the
  controllers use: `pending`, `unsold`, `auctionStartDate`,
  `auctionEndDate`, `currentHighestBid`, `highestBidder` and `totalBids`.
  models/Sale.js does not declare them.
- `currentHighestBid` starts at 0 when a sale is listed, so the first bid's
  conditional update succeeds. Under MongoDB, `$lt` on a missing field
  matches nothing.
- The conditional update in `placeBid` and the bid it appends are one
  atomic step. Under the ledger invariant, a bid that passes the checks
  always passes the update (`Bidding.ScreenedBidCommits`).
- The bidder is the token's `id || buyerId` claim. Only buyer tokens carry
  `buyerId` and no token carries `id`, so the model takes the claim as an
  `Option`. Without it the conditional update still commits: the bid count
  and highest bid change, and the `highestBidder: undefined` key is dropped
  from the update (the behaviour of Mongoose 7 and later, which strips
  undefined keys). `Bid.create` then fails on the required `buyerId` and
  the reply is 500.
- The marketplace listing in controllers/saleController.js:70-85 sets no
  auction dates. The date checks of a bid therefore pass on such a sale,
  and the sweep never closes it.
- The settlement sweep does not always change nothing on a second run with
  the same clock:
  - Suppose a pending marketplace sale is already past its end when it
    opens. The first run activates it and the second run closes it.
    `AuctionSweep.SweepNotIdempotent` shows this case.
  - `AuctionSweep.SweepIdempotent` proves idempotence when no sale is in
    that state.
- Mongoose runs in strict mode, so paths a schema does not declare are not
  stored:
  - Fields keep no `crop`, `irrigationType` or `healthScore: null` from
    `createField`.
  - Farmers keep no `isProfileComplete` or `verificationDeadline`.
  - Government employees keep no `createdByAdmin`, `profileComplete` or
    `verificationStatus`. `verifyEmployee` therefore always stops at its
    incomplete-profile check (`Admin.VerifyEmployee`).
  - A crop output released by the settlement job keeps no `saleType`
    (models/CropOutput.js declares none).
  - An accepted offer's requirement keeps no `fulfilledBy`
    (models/BuyerRequirement.js declares none).
- `recordExpense` in controllers/farmController.js creates an Expense
  without the `userId`, `userType` and `title` the schema requires. It
  always fails with a server error (`Farm.RecordExpense`).
- The certificate hook in models/QualityRequest.js takes `next` and never
  calls it. A Mongoose version that waits for `next` in such a hook would
  never finish any QualityRequest save, so nothing would be stored. The
  model assumes the save goes ahead with the hook's changes, as it does
  where the hook's result is not awaited through `next`.
- The OTP code depends on the controller:
  - authController always stores the generated code.
  - farmerAuthController and vendorAuthController always store "000000".
  - buyerAuthController and govtAuthController store the generated code
    for a new account and "000000" for a returning one.

## Model

| member | source | states |
|---|---|---|
| Bidding.MinValidBid | controllers/bidController.js:32-37 | the least acceptable amount is the floor price for a first bid and the highest bid plus 50 afterwards |
| Bidding.Screen | controllers/bidController.js:9-51 | the checks run in the source's order: a missing or non-positive amount gives the invalid-amount reply; a valid amount on an unknown sale gives not-found; otherwise not started, then ended once started, then not active inside the window, then on an active sale below the least valid bid the first-bid reply with the floor when there are no bids or the too-low reply with highest + 50; no reply exactly when the bid is acceptable |
| Bidding.Commit | controllers/bidController.js:53-63 | the conditional update sets the highest bid, adds one to the bid count, sets the bidder when the caller has a buyer claim and keeps it otherwise, and changes nothing else |
| Bidding.PlaceBid | controllers/bidController.js:5-115 | a refused bid changes nothing; an accepted bid updates its sale and, for a caller with a buyer claim, appends an active bid to the ledger; without the claim the sale is updated, no bid is stored and the reply is 500; a failed conditional update replies with the stored highest bid and changes nothing |
| Bidding.ScreenedBidCommits | controllers/bidController.js:53-72 | under the ledger invariant a bid that passes the checks always passes the conditional update, so a sequential run never gives the race reply |
| Bidding.ClaimlessBidBreaksLedger | controllers/bidController.js:7-79 | a committed update without a stored bid leaves the sale counting one bid more than the ledger, so the ledger invariant fails |
| Bidding.CommitKeepsLedger | controllers/bidController.js:53-79 | an accepted bid keeps the ledger invariant (counts, increasing amounts, latest bid equals the sale's highest) and the settlement invariant |
| Bidding.EndedBeatsActive | controllers/bidController.js:19-30 | after the start and past the end a bid is refused as ended whatever the sale's status, because the date checks come first |
| Bidding.BidsForSale | controllers/bidController.js:118-129 | exactly the sale's bids, as a permutation of the store-order matches, highest amount first |
| Bidding.MyBids | controllers/bidController.js:132-144 | exactly the buyer's bids, as a permutation of the store-order matches, highest amount first |
| AuctionLedger.HighestIsMax | controllers/bidController.js:53-63 | under the ledger invariant no bid on a sale exceeds its currentHighestBid, which is never negative and is carried by a bid when the sale has bids |
| AuctionLedger.OnlyLastIsHighest | services/auctionCron.js:49-58 | only the latest bid on a sale carries the sale's currentHighestBid, so the winner filter cannot match an earlier bid |
| AuctionLedger.AtMostOneWon | services/auctionCron.js:45-58 | once bids are settled a sale has at most one won bid, and its amount is the sale's highest |
| AuctionLedger.LedgerKeysOnly | services/auctionCron.js:27-85 | the ledger invariant reads only sale ids, buyers, amounts and counters, so status changes keep it |
| AuctionSweep.Closed | services/auctionCron.js:31-38 | a closed sale with bids is sold to the highest bidder at the highest bid on the run's date; one without bids is unsold; no other field changes |
| AuctionSweep.LoseAll | services/auctionCron.js:47 | every bid on the sale becomes lost and every other bid is unchanged |
| AuctionSweep.MarkWinner | services/auctionCron.js:49-58 | only the first bid in store order matching the sale, the highest bidder and the highest amount becomes won |
| AuctionSweep.MarkOutputSold | services/auctionCron.js:40-43 | the sold sale's lot becomes sold; a missing lot changes nothing |
| AuctionSweep.ReleaseOutput | services/auctionCron.js:73-79 | the unsold sale's lot becomes available without a sale link, and nothing else about it changes (the `saleType` the job also writes is not a CropOutput path, so strict mode drops it); a missing lot changes nothing |
| AuctionSweep.ActivateAll | services/auctionCron.js:90-93 | exactly the pending sales whose start has come become active |
| AuctionSweep.CheckAuctionStatus | services/auctionCron.js:7-98 | the loop over the expired sales followed by the activation leaves the store equal to one run of the sweep on the old store |
| AuctionSweep.CloseUpToSales | services/auctionCron.js:13-85 | the closing pass closes exactly the expired sales it has visited and leaves every other sale alone |
| AuctionSweep.SweepSale | services/auctionCron.js:13-93 | after one run an expired sale is closed, a due pending sale is active, and any other sale is unchanged |
| AuctionSweep.SweepLeavesOthers | services/auctionCron.js:13-18 | a sale neither active nor pending is never touched, and a sale the run activates stays active in that run |
| AuctionSweep.SweepBid | services/auctionCron.js:45-58 | after one run the bids of an expired sale with bids are all lost except the latest, which is won; other bids are unchanged |
| AuctionSweep.OutputAfterClose | services/auctionCron.js:40-43 | a closed sale's lot is sold when it had bids; otherwise it becomes available with no sale link and keeps every other path |
| AuctionSweep.SweepOutputs | services/auctionCron.js:40-79 | after one run every expired sale's lot is sold or released and every lot no expired sale lists is unchanged |
| AuctionSweep.SweepKeepsLedger | services/auctionCron.js:27-93 | the ledger invariant holds after a run |
| AuctionSweep.SweepKeepsSettled | services/auctionCron.js:27-93 | the settlement invariant holds after a run: sold sales have exactly one won bid, the latest |
| AuctionSweep.SweepIdempotent | services/auctionCron.js:7-98 | a second run with the same clock changes nothing when no due sale has already ended |
| AuctionSweep.SweepNotIdempotent | services/auctionCron.js:13-18 | without that proviso a marketplace sale opened after its end by one run is closed by the next run with the same clock |
| Bidding.CommitKeepsCounts | controllers/bidController.js:59-79 | after a commit and its appended bid, every sale's bid count still equals the number of its bids |
| Bidding.CommitKeepsOrder | controllers/bidController.js:59-79 | an appended bid higher than every earlier bid on its sale keeps amounts positive and strictly increasing per sale |
| Bidding.CommitKeepsTop | controllers/bidController.js:59-79 | after a commit the latest bid on each sale still carries that sale's highest amount and bidder |
| Bidding.CommitKeepsSettled | controllers/bidController.js:74-79 | an active bid appended to an unsold sale keeps the settlement invariant |
| AuctionLedger.LastOfAppend | controllers/bidController.js:74-79 | appending a bid makes it the latest on its sale and ends that status only for the earlier bids on the same sale |
| AuctionLedger.LastExists | controllers/bidController.js:59-79 | a sale with counted bids has a latest bid |
| AuctionLedger.LastIsUnique | services/auctionCron.js:47-58 | two bids on the same sale cannot both be the latest |
| AuctionSweep.LedgerWinner | services/auctionCron.js:47-58 | under the ledger invariant, a bid matches the winner filter (highest bidder and amount) exactly when it is the latest bid on its sale |
| AuctionSweep.SettleOneSale | services/auctionCron.js:47-58 | settling a sold sale makes its latest bid won and every other bid of it lost, and leaves other sales' bids alone |
| AuctionSweep.CloseUpToBids | services/auctionCron.js:14-58 | after the closing loop has visited its first k sales, each bid is as settlement of the sales visited so far leaves it |
| AuctionSweep.SweepKeepsKeys | services/auctionCron.js:14-93 | a run changes only statuses and sale outcomes, never the amounts, counts or winners the ledger invariant reads |
| SaleListing.Certificate | controllers/saleController.js:52-67 | a listing carries a certificate, with the request's grade, exactly when the lot is quality-approved and its quality request exists and is approved |
| SaleListing.ListedOutput | controllers/saleController.js:89-92 | a listed lot is listed-for-sale and linked to its sale, nothing else changes |
| SaleListing.CommonRefusal | controllers/saleController.js:22-50 | no refusal exactly when the caller owns the lot, no active or pending-approval sale of it exists and its status is listable; the not-found check comes first, then the already-listed check |
| SaleListing.MarketplaceRefusal | controllers/saleController.js:10-105 | listing proceeds exactly when the price is valid, the shared checks pass, the lot's references resolve and the save succeeds; a bad price is refused first |
| SaleListing.ListForMarketplace | controllers/saleController.js:10-105 | a refusal changes nothing; otherwise an active marketplace sale is appended with the floor price and the certificate, and the lot becomes listed and linked to it |
| SaleListing.ActiveMsp | controllers/saleController.js:153-157 | the first active support-price entry for the crop, and none exactly when no entry for the crop is active |
| SaleListing.GovernmentRefusal | controllers/saleController.js:109-163 | listing proceeds exactly when the shared checks pass, the crop has a support price, an active entry exists and the save succeeds; a crop without support price and a missing entry give their own replies; there is no price check |
| SaleListing.ProcurementOf | controllers/saleController.js:201-216 | the procurement request is pending, for the whole lot, at the support price, with total amount price times quantity |
| SaleListing.ListForGovernmentMsp | controllers/saleController.js:109-243 | a refusal changes nothing; otherwise a pending-approval sale at the support price, its procurement request and the sale's link to it are stored, and the lot becomes listed |
| SaleListing.ListingKeepsInvariants | controllers/saleController.js:70-87 | a new listing keeps the ledger invariant, the settlement invariant and one sale per lot |
| SaleListing.RelistingFails | controllers/saleController.js:34-43 | a lot with a cancelled or unsold sale passes the already-listed check but its second sale hits the unique lot index and gives a server error |
| SaleListing.RevertedOutput | controllers/saleController.js:327-342 | the lot of a cancelled sale loses its sale link and returns to quality-approved exactly when its quality request is approved, otherwise to available |
| SaleListing.WithdrawnRequests | controllers/saleController.js:344-350 | only the procurement request of a cancelled government sale is rejected with the reason "Cancelled by farmer" |
| SaleListing.CancelSale | controllers/saleController.js:300-361 | another farmer's or a missing sale is not found and a sold sale cannot be cancelled, both without change; otherwise the sale is cancelled, its lot reverted and its procurement request withdrawn |
| SaleListing.CancelKeepsInvariants | controllers/saleController.js:322-324 | cancelling an unsold sale keeps the ledger, settlement and one-sale-per-lot invariants |
| SaleListing.UpdateSalePrice | controllers/saleController.js:365-408 | a bad price, a sale that is not the caller's marketplace sale, and an inactive sale are refused without change; otherwise only the floor price changes |
| SaleListing.RepriceKeepsInvariants | controllers/saleController.js:395-396 | a new floor price keeps the store invariants |
| CropOutputs.Harvested | controllers/cropOutputController.js:37-41 | a harvested field is fallow without planting or expected-harvest date and keeps its owner, crop, name and area |
| CropOutputs.CreateCropOutput | controllers/cropOutputController.js:9-61 | a field that is not the caller's is not found, a field without crop is refused, a missing quantity fails validation, all without change; otherwise the output is appended and the field is harvested |
| CropOutputModel.ParseStatus | models/CropOutput.js:43-47 | a string naming none of the enum's statuses is kept as that string |
| CropOutputModel.ParseStatusText | models/CropOutput.js:43-47 | each enum status reads back from its string, and a string read as an enum status is that status's string |
| CropOutputs.WrittenStatus | controllers/cropOutputController.js:110-116 | an absent status writes nothing; a null is stored as null and any string as the status it names or as itself |
| CropOutputs.UpdateCropOutputStatus | controllers/cropOutputController.js:106-127 | another farmer's or an unknown output gives 404 without change; otherwise only the caller's output's status changes, to whatever the body gives (no validators run), and an absent status leaves it as it was |
| CropOutputs.UnlistedStatusStored | controllers/cropOutputController.js:112-116 | a string outside the enum is stored as given, and the output then cannot be listed for sale |
| CropOutputs.CreateKeepsOwnership | controllers/cropOutputController.js:21-51 | recording a harvest keeps every output tied to a field of its farmer, and the new output is available without a sale |
| CropOutputs.UpdatesKeepOwnership | controllers/cropOutputController.js:112-116 | changing an output's status or planting a field keeps every output tied to its farmer's field |
| CropOutputs.CropNeededForHarvest | controllers/cropOutputController.js:25-27 | a new field has no crop, so no output can be recorded on it, while a harvested field keeps its crop |
| Farm.NewField | controllers/farmController.js:22-32 | a new field is Preparing with no score and no crop; soil type falls back to "Unknown" and coordinates to (0, 0) |
| Farm.CreateField | controllers/farmController.js:13-39 | a missing name, area or crop gives 400 and stores nothing; otherwise exactly one new field is appended |
| Farm.Planted | controllers/farmController.js:76-86 | planting sets the crop, status Growing and health 85, the planting date defaults to now, an absent expected harvest keeps the stored one, and owner, name, area and score are kept |
| Farm.UpdateFieldCrop | controllers/farmController.js:63-100 | an unknown crop gives 404 before ownership is checked; another farmer's field gives 404; otherwise only that field is replaced by its planted form |
| Farm.ActiveCount | controllers/farmController.js:146 | the number of Growing fields is at most the number of fields |
| Farm.HealthCount | controllers/farmController.js:147 | no field is counted exactly when no field has a truthy score |
| Farm.RoundDiv | controllers/farmController.js:154 | the result is the nearest integer to t / c, halves rounding up |
| Farm.AvgHealth | controllers/farmController.js:153-155 | null exactly when no field has a truthy score |
| Farm.HealthBounds | controllers/farmController.js:144-147 | when every counted score lies in [lo, hi], the score total lies between lo and hi times the count |
| Farm.AvgHealthWithin | controllers/farmController.js:138-155 | when some field is scored and all counted scores lie in [lo, hi], the average is present and lies in [lo, hi] |
| Farm.CreatedFieldsHaveNoAverage | controllers/farmController.js:22-32 | fields made by createField alone give a null average |
| Farm.Stats | controllers/farmController.js:133-189 | totalFields counts the caller's fields, activeFields never exceeds it, avgHealth is null exactly when none of them is scored, and todaysTasks is the length of today's task list |
| Farm.LocalMidnight | controllers/farmController.js:161-162 | local midnight is at most now, less than a day before it, and a whole number of days in local time |
| Farm.WindowIsLocalDay | controllers/farmController.js:161-173 | an instant lies in [today, tomorrow) exactly when it falls on the same local day as now |
| Farm.TodaysTasks | controllers/farmController.js:194-220 | exactly the caller's incomplete tasks due on today's local day, as a permutation of the matching tasks, earliest due first |
| Farm.CompleteTask | controllers/farmController.js:223-243 | another farmer's or an unknown task gives 404 and changes nothing; otherwise only that task becomes completed |
| Farm.CompletedTaskLeavesToday | controllers/farmController.js:166-173 | a completed task drops out of today's list, and completing it again changes nothing |
| Farm.RecordExpense | controllers/farmController.js:248-271 | a missing category, item or amount gives 400; otherwise the create always fails with a server error because the Expense schema's required fields are absent |
| Msps.NewMsp | controllers/mspController.js:68-75 | a new entry is active, stamped with the officer, with unit "quintal", season year-round and effective now unless they are given |
| Msps.CreateMsp | controllers/mspController.js:49-87 | a missing crop name or price gives 400; an existing entry of that name, active or not, gives 400; a negative price fails the schema; otherwise exactly one entry is appended |
| Msps.CreateKeepsOnePerCrop | controllers/mspController.js:60-77 | creation keeps crop names unique and makes the new name known |
| Msps.Apply | controllers/mspController.js:108-118 | fields present in the update replace the stored ones, the others are kept, the name is never changed and the officer is stamped |
| Msps.UpdateMsp | controllers/mspController.js:90-135 | the guard refuses an update with no usable field; the update document holds the price whenever one is given (0 included), a truthy unit, a season, an effectiveFrom and any isActive; a negative price fails validation before the lookup; an unknown id gives 404; otherwise only that entry changes |
| Msps.UpdateKeepsOnePerCrop | controllers/mspController.js:108-121 | updates keep crop names unique |
| Msps.DeleteMsp | controllers/mspController.js:138-161 | a soft delete that clears only isActive and stamps the officer; an unknown id gives 404 |
| Msps.RetiredStillBlocksCreate | controllers/mspController.js:61-66 | a deactivated entry leaves the listing but still blocks creating its crop again |
| Msps.ByCropNameIsOrder | controllers/mspController.js:15 | the crop-name order used by the listing is total and transitive |
| Msps.ActiveList | controllers/mspController.js:6-25 | exactly the active entries, of the requested season when one is given, as a permutation of the matches, in crop-name order |
| Msps.ListingStrictlyOrdered | controllers/mspController.js:15 | with one entry per crop, no crop name appears twice in the listing |
| Offers.CountLive | controllers/requirementOfferController.js:45-48 | the number of offers on a requirement that have not been cancelled is at most the number of offers |
| Offers.CountAppend | controllers/requirementOfferController.js:43-48 | appending an offer raises the count of its requirement by one when it is live and leaves every other count alone |
| Offers.CountUpdate | controllers/requirementOfferController.js:200-206 | replacing one offer changes a count by exactly the difference the two versions make |
| Offers.CountSameLive | controllers/requirementOfferController.js:152-165 | counts depend only on which requirement each offer names and whether it is cancelled |
| Offers.CountNone | controllers/buyerRequirementController.js:45-63 | a requirement no offer names has count zero |
| Offers.CreateOffer | controllers/requirementOfferController.js:5-55 | a non-farmer gets 403 and an absent or inactive requirement 400, changing nothing; an offer failing the schema changes nothing; otherwise one pending offer addressed to the requirement's own buyer is appended and that requirement's counter goes up by one |
| Offers.CreateKeepsCounter | controllers/requirementOfferController.js:33-48 | a created offer together with its increment keeps every stored counter equal to the live count |
| Offers.RejectSiblings | controllers/requirementOfferController.js:152-161 | the update touches offers one by one and keeps their number |
| Offers.UpdateOfferStatus | controllers/requirementOfferController.js:111-172 | a status other than accepted or rejected gives 400; an offer that is not a pending offer to the caller gives 404; rejecting changes only that offer; accepting an offer whose requirement is no longer active gives 400; otherwise the requirement is saved as fulfilled (the `fulfilledBy` assignment is dropped, since BuyerRequirement.js does not declare it), the other pending offers on it are rejected and the offer is accepted |
| Offers.AcceptScope | controllers/requirementOfferController.js:146-165 | accepting marks the offer accepted, rejects exactly the other pending offers on its requirement, leaves every other offer unchanged, and leaves no pending offer on that requirement |
| Offers.AcceptKeepsCounts | controllers/requirementOfferController.js:152-165 | accepting changes no live count |
| Offers.RejectKeepsCounts | controllers/requirementOfferController.js:164-165 | rejecting changes no live count |
| Offers.AcceptKeepsCounter | controllers/requirementOfferController.js:133-165 | accepting keeps every counter equal to the live count |
| Offers.NoSecondAcceptance | controllers/requirementOfferController.js:133-165 | after an acceptance the requirement is not active and no offer on it is pending for any buyer, so no second acceptance can happen |
| Offers.CancelOffer | controllers/requirementOfferController.js:175-213 | a non-farmer gets 403 and an offer that is not the farmer's own pending offer 404, changing nothing; otherwise the offer becomes cancelled and its requirement's counter goes down by one |
| Offers.CancelKeepsCounter | controllers/requirementOfferController.js:200-206 | cancelling keeps every counter equal to the live count |
| Offers.CreateThenCancel | controllers/requirementOfferController.js:33-48 | a created offer can be cancelled by its farmer, and cancelling it restores every requirement, counters included, and every live count |
| Offers.NewRequirementKeepsCounter | controllers/buyerRequirementController.js:45-63 | a new requirement starts at zero, which is its live count |
| Offers.DeleteKeepsCounter | controllers/buyerRequirementController.js:194-200 | deleting a requirement leaves the other counters exact |
| Offers.UpdateAndCounter | controllers/buyerRequirementController.js:170-174 | an update that leaves the counter alone keeps it exact, and one that sets it to any other value breaks the counter invariant |
| RequirementModel.PreSave | models/BuyerRequirement.js:110-114 | after the hook an expiry is always set: an explicit one is kept, an unset one becomes the required-by date |
| Requirements.Draft | controllers/buyerRequirementController.js:45-61 | the new document is negotiable unless the body says otherwise, of grade "Any" by default, active, with no offers, and keeps the given expiry for the hook |
| Requirements.CreateRequirement | controllers/buyerRequirementController.js:4-73 | a non-buyer gets 403 and a missing required field 400; a draft the schema bounds refuse is a server error; otherwise exactly one requirement, as the save hook leaves it, is appended |
| Requirements.NewerFirstIsOrder | controllers/buyerRequirementController.js:88-90 | newest-first is a total, transitive order |
| Requirements.Feed | controllers/buyerRequirementController.js:103-138 | exactly the active requirements whose expiry is absent or not past, in the asked category unless it is "all" and of the asked contract type, as a permutation of the matches, newest first |
| Requirements.MyRequirements | controllers/buyerRequirementController.js:76-100 | exactly the caller's requirements, in the asked status when one is given, as a permutation of the matches, newest first |
| Requirements.NewRequirementInFeed | controllers/buyerRequirementController.js:45-63 | a created requirement shows in the unfiltered feed exactly until its expiry passes, the required-by date standing in when no expiry was given |
| Requirements.PatchKeepsValid | controllers/buyerRequirementController.js:170-174 | a patch that passes the update validators (no empty crop name or unit, quantity at least 1, price at least 0, description at most 500 characters) keeps every schema rule and, when it does not set the counter, the counter |
| Requirements.UpdateRequirement | controllers/buyerRequirementController.js:162-186 | an invalid patch, including an empty crop name or unit, is a server error without change; a requirement that is not the caller's gives 404; otherwise only that requirement is patched, its owner included when the body sets `buyer` |
| Requirements.BodyReassignsOwner | controllers/buyerRequirementController.js:170-174 | a body that sets `buyer` hands the requirement to that buyer, and the caller no longer owns it |
| Offers.TransferLeavesOffersWithOldBuyer | controllers/requirementOfferController.js:121-125 | after such a transfer the requirement is still open, the new owner has no pending offer to decide on it, and the buyer who posted it still does |
| Requirements.DeleteRequirement | controllers/buyerRequirementController.js:189-207 | a requirement that is not the caller's gives 404 and nothing changes; otherwise only that requirement is removed |
| Orders.RentalDays | controllers/orderController.js:37-38 | a rental is always charged at least one day |
| Orders.RentalDaysIsCeiling | controllers/orderController.js:37-42 | the charge does not depend on the order of the dates, is one day exactly for a same-day rental, and is one more than the fewest whole days covering the span, so the invalid-dates branch is never taken for real dates |
| Orders.RentalDaysWhole | controllers/orderController.js:37-38 | a rental spanning exactly n whole days, in either direction, is charged n + 1 days |
| Orders.SumCoveringFilter | controllers/orderController.js:47-68 | on a day of the requested range, summing over the conflict query's result equals summing over all accepted rentals of the product |
| Orders.ConflictQueryIsExact | controllers/orderController.js:47-68 | on every day of the requested range the conflict query's sum is the product's booked usage of that day |
| Orders.FitsFromConflicts | controllers/orderController.js:58-71 | the loop's test on a day decides exactly whether the request fits on that day |
| Orders.UnbookedIgnored | controllers/orderController.js:46-53 | orders that are not accepted rentals of the product never count against a day |
| Orders.DayOrder | controllers/orderController.js:57 | the days the loop visits start at the start date and advance by one day each |
| Orders.SumOnDay | controllers/orderController.js:58-68 | the inner loop returns the quantity of the conflicting orders covering the day |
| Orders.AllVisitedFit | controllers/orderController.js:57-76 | once the loop passes the end date with every visited day fitting, the request fits on every day of the range |
| Orders.FirstFullFound | controllers/orderController.js:71-75 | a visited day without room after days that all fit is the first full day, and the request does not fit throughout |
| Orders.VisitDay | controllers/orderController.js:57-76 | one turn of the date loop either finds the first full day or extends the fitting prefix by one day |
| Orders.FirstOverbookedDay | controllers/orderController.js:57-76 | no day is reported exactly when every visited day has room; a reported day is the first visited day without room |
| Orders.ReversedDatesSkipCalendar | controllers/orderController.js:37-57 | with the end before the start a positive number of days is charged while the date loop checks no day |
| Orders.NewOrder | controllers/orderController.js:90-105 | a new order is pending, cash on delivery, addressed to the product's vendor, with a snapshot of the product's name, price and unit |
| Orders.CreateOrder | controllers/orderController.js:5-118 | an unknown product gives 404 and a quantity above stock 400 for any type; a purchase is priced price × quantity without rental details; a rental that fits every day is priced price × days × quantity and records its dates and days; otherwise it is refused at the first full day with the units left that day; a missing type fails on save; a refused order stores nothing |
| Orders.StockAfter | controllers/orderController.js:163-174 | accepting a pending purchase takes exactly its quantity from its own product and is refused when stock is short; non-negative stock stays non-negative; every other product and every other change is left alone |
| Orders.StoredStatus | controllers/orderController.js:176-177 | a given status is stored; an absent one passes the enum validator, unsets the path and reads back as "pending"; exactly a value outside the enum fails the save |
| Orders.UpdateOrderStatus | controllers/orderController.js:155-185 | another vendor's or an unknown order gives 404, a value outside the enum 500 and a short stock 400, changing nothing; otherwise the stock step runs for a given "accepted" and the order stores the new status, "pending" when the body has none |
| Orders.SecondAcceptTakesNothing | controllers/orderController.js:165 | accepting the same purchase twice in a row takes no further stock |
| Orders.ResetThenAcceptTakesTwice | controllers/orderController.js:158-177 | a request without a status puts an accepted purchase back to pending without returning stock, so accepting it again takes its quantity a second time |
| QualityModel.CertificateNumberParts | models/QualityRequest.js:113-116 | the number splits back into its parts: the "QC" prefix, the year, the zero-padded month and the random value, at a length of the year's digits plus eight |
| QualityModel.PreSave | models/QualityRequest.js:105-123 | a number is assigned exactly when the grade was modified to a value other than null and "Rejected" and none exists; an existing number is never overwritten; the issue date is set in the same step; nothing else changes |
| Quality.CreateQualityRequest | controllers/qualityController.js:10-57 | a field that is not the caller's gives 404; a field with a pending or in-progress request gives 400; a request the schema refuses is a server error; otherwise exactly one pending request is appended |
| Quality.CreateKeepsInvariants | controllers/qualityController.js:24-47 | the new request is pending and open, each field keeps at most one open request, and only started requests have an officer |
| Quality.AssignInspection | controllers/qualityController.js:140-168 | an unknown request gives 404 and a request that is not pending 400; otherwise it moves to in-progress with the caller as officer and nothing else changes |
| Quality.ReplaceKeepsOneOpen | controllers/qualityController.js:156-158 | replacing a request by one for the same field that is open only if the old one was keeps one open request per field |
| Quality.AssignKeepsInvariants | controllers/qualityController.js:150-158 | assignment keeps one open request per field and officers only on started requests |
| Quality.Grade | controllers/qualityController.js:195-223 | grade "Rejected" gives status rejected with the reason, any other grade gives approved; the inspection date defaults to now; officer, field and certificate number are kept |
| Quality.SubmitGrading | controllers/qualityController.js:171-240 | an unknown request gives 404, a request without an officer a server error, another officer 403; otherwise the graded request, after the save hook, replaces it; the status is not checked, so regrading is allowed |
| Quality.GradeKeepsInvariants | controllers/qualityController.js:188-225 | a request that can be graded has already left pending; grading closes it as approved or rejected and keeps both invariants |
| Quality.GradingCertificate | models/QualityRequest.js:107-117 | an existing number is kept, a "Rejected" or absent grade earns none, and a new passing grade on a request without a number earns a "QC" number issued now |
| Quality.PendingRequests | controllers/qualityController.js:103-117 | exactly the pending and in-progress requests, as a permutation of the matches, oldest first |
| Expenses.UserId | controllers/expenseController.js:4-6 | the first id claim present in the order vendorId, buyerId, userId, _id; none exactly when no claim is present |
| Expenses.NewExpense | controllers/expenseController.js:18-25 | the new record carries the caller's id and role, the given title, category and amount, and the given date or now |
| Expenses.AddExpense | controllers/expenseController.js:9-33 | a token without an id claim gives 401; a record the schema refuses (role outside the enum, missing title or category, negative amount) is a server error; otherwise exactly one record is appended |
| Expenses.LaterFirstIsOrder | controllers/expenseController.js:58 | latest-date-first is a total, transitive order |
| Expenses.SumAppend | controllers/expenseController.js:61 | the running total over two stretches is the sum of their totals |
| Expenses.SumPermutation | controllers/expenseController.js:58-61 | the total does not depend on the order the records come in, so sorting before summing changes nothing |
| Expenses.MultisetRemove | controllers/expenseController.js:58-61 | removing the record at a position removes one copy of it from the multiset |
| Expenses.SumRemove | controllers/expenseController.js:61 | removing the record at a position removes its amount from the total |
| Expenses.SumAround | controllers/expenseController.js:61 | a record between two stretches adds its amount to their total |
| Expenses.SumNonNegative | controllers/expenseController.js:61 | records with non-negative amounts have a non-negative total |
| Expenses.GetExpenses | controllers/expenseController.js:36-72 | exactly the caller's records, within the month window when both month and year are given, latest first, with their count and the sum of their amounts |
| Expenses.TotalNonNegative | controllers/expenseController.js:58-61 | while every stored amount meets the schema's minimum of 0, no listing has a negative total |
| Expenses.DeleteExpense | controllers/expenseController.js:117-136 | only the caller's own record is removed; an unknown id or another user's gives 404 and changes nothing |
| Expenses.ChangesKeepAmounts | controllers/expenseController.js:18-27 | storing a record with a non-negative amount and deleting one keep every stored amount at least 0 |
| Expenses.AddMovesListing | controllers/expenseController.js:18-61 | a stored record raises the count and total of every listing it matches by one record and its amount, and leaves every other listing, other users' included, unchanged |
| Expenses.FilterLiveAppend | controllers/expenseController.js:58 | after an insert, the matching records are the old matches followed by the new record when it matches |
| Expenses.DeleteMovesListing | controllers/expenseController.js:123-129 | deleting a record lowers the count and total of every listing it matched by one record and its amount, and leaves every other listing's count and total unchanged |
| Expenses.LiveAround | controllers/expenseController.js:123 | removing a stored record leaves the records on either side of it in order |
| Expenses.DropOne | controllers/expenseController.js:58-61 | taking one record out of a stretch removes it and its amount from the matches exactly when it matched |
| Expenses.WindowIsMonth | controllers/expenseController.js:44-55 | the window of month m spans exactly that month's days, and the next month's window starts one millisecond after it ends, across a year end too |
| Expenses.MonthsDisjoint | controllers/expenseController.js:44-55 | windows of two different months of one year never overlap, so a record appears in at most one month's listing |
| Expenses.StartsIncrease | controllers/expenseController.js:47 | later months of a year start no earlier |
| Calendar.DaysInMonth | controllers/expenseController.js:49 | a month has 28 to 31 days |
| Calendar.FullYear | controllers/expenseController.js:47-49 | the Date constructor reads a year from 0 to 99 as 1900 to 1999 and leaves every other year alone |
| Calendar.MonthLength | controllers/expenseController.js:47-49 | the first of the next month lies exactly one month length after the first of this one |
| Calendar.MonthStartIs | controllers/expenseController.js:47 | `new Date(year, month - 1, 1)` is local midnight of the month's first day |
| Calendar.NextMonthStartIs | controllers/expenseController.js:49 | midnight on the first of the following month is one month length after the month's start |
| Calendar.MonthEndIs | controllers/expenseController.js:49 | `new Date(year, month, 0, 23, 59, 59, 999)` is the last millisecond before the next month starts |
| Calendar.YearRollover | controllers/expenseController.js:49 | month index 12 of one year is month index 0 of the next, away from the 0 to 99 boundary |
| Calendar.MonthWindow | controllers/expenseController.js:44-55 | the window starts at local midnight of the month's first day, is exactly the month's days long, and ends one millisecond before the next month starts |
| LotIds.Next | utils/generateLotId.js:4-8 | the upserted increment creates an absent counter holding 1 and otherwise adds one |
| LotIds.LotId | utils/generateLotId.js:10 | the id is "LOT-" followed by at least six digits that read back as the counter value, never truncated |
| LotIds.GenerateLotId | utils/generateLotId.js:3-11 | one call advances the counter by one step and returns the id of the new value |
| LotIds.LotIdInjective | utils/generateLotId.js:10 | different counter values give different ids |
| LotIds.LargeCountersNotTruncated | utils/generateLotId.js:10 | counters of a million and more render with more than six digits |
| LotIds.DecimalBound | utils/generateLotId.js:10 | a number rendered with at most k digits is below 10^k |
| LotIds.IterateGrows | utils/generateLotId.js:4-8 | after one or more calls the counter exists and its next value exceeds the first call's |
| LotIds.SuccessiveCallsDistinct | utils/generateLotId.js:3-11 | a later call never returns an id an earlier call returned |
| Common.OrElse | controllers/farmController.js:27 | `a \|\| b` on optional text is the first operand when it is truthy and the second otherwise |
| Common.Zeros | utils/generateLotId.js:10 | k zero characters |
| Common.PadStart | utils/generateLotId.js:10 | zero padding reaches the width without cutting the text, keeps the text at the end and puts only zeros before it |
| Common.DecimalShape | utils/generateLotId.js:10 | a rendered number is at least one digit long, all digits, with no leading zero unless it is 0 |
| Common.DecimalRoundTrip | utils/generateLotId.js:10 | reading back a rendered number gives the number |
| Common.DecimalLength | models/QualityRequest.js:115-116 | a number from 10^(k-1) to below 10^k renders with exactly k digits |
| Common.FourDigits | models/QualityRequest.js:115-116 | the random value from 1000 to 9999 renders with four digits |
| Common.AtMostTwoDigits | models/QualityRequest.js:114 | a month renders with at most two digits |
| Common.ZerosValue | utils/generateLotId.js:10 | leading zeros do not change the value read back |
| Common.PaddedRoundTrip | utils/generateLotId.js:10 | a zero-padded rendered number is all digits and reads back as the number |
| CropCatalog.CropKeys | models/Crop.js:47 | CROP_KEYS holds the 28 catalogue keys in declaration order |
| CropCatalog.Lookup | models/Crop.js:4-44 | a found entry is a catalogue entry under that key; nothing is found exactly when no entry has the key |
| CropCatalog.DisplayName | models/Crop.js:50-52 | the catalogue name of a known key, and the key itself for an unknown key |
| CropCatalog.Icon | models/Crop.js:55-57 | the catalogue icon of a known key, and "crop" for an unknown key |
| CropCatalog.KnownIffListed | models/Crop.js:47-57 | a key is found exactly when it is one of the catalogue's keys |
| CropCatalog.LookupFindsFirst | models/Crop.js:4-44 | an entry is the one found for its key when no earlier entry shares the key |
| CropCatalog.WheatLookups | models/Crop.js:8 | "WHEAT" displays as "Wheat" with icon "wheat" |
| CropCatalog.PreSave | models/Crop.js:136-146 | the hook fills an empty icon or display name of a typed crop from the catalogue, keeps filled ones and changes nothing else |
| CropCatalog.PreSaveFills | models/Crop.js:136-146 | after the hook a typed crop has a non-empty icon and display name |
| AccountModel.GovtDefaults | models/GovtEmployee.js:75-103 | a new government employee's department defaults to "Department of Agriculture" and marital status to "N/A" |
| Sorting.Live | controllers/expenseController.js:123 | the listed documents are exactly the ones not deleted |
| Sorting.Filter | controllers/bidController.js:121 | a query returns exactly the stored elements that satisfy the filter, each no more often than stored |
| Sorting.Insert | controllers/bidController.js:123 | inserting into a sorted sequence keeps it sorted and adds exactly that element |
| Sorting.Sort | controllers/bidController.js:121-123 | `.sort` returns a permutation of its input, sorted by the key |
| Sorting.HeadIsLeast | controllers/bidController.js:123 | the head of a sorted sequence comes before every element of it |
| Sorting.SortedUnique | controllers/bidController.js:123 | two sorted orderings of the same elements under a key that never ties two different elements are identical |
| Sorting.FilterAppend | controllers/expenseController.js:58 | a query over two stretches of a collection is the two queries joined |
| Sorting.LiveAppend | controllers/expenseController.js:58 | the live documents of two stretches are the two stretches' live documents joined |
| Admin.FindAdmin | controllers/adminController.js:20 | the first administrator with that username, or none exactly when no administrator has it |
| Admin.LoginOutcome | controllers/adminController.js:12-40 | a missing username or password gives 400 exactly; a disabled account is refused exactly when it is found and inactive; a login succeeds exactly when the first administrator with the username is active and the password matches its stored hash, and it names that administrator; invalid credentials are given exactly for an unknown username or an active account with a wrong password |
| Admin.AdminLogin | controllers/adminController.js:10-67 | the reply is the login outcome; a successful login stamps lastLogin on that administrator only, every refusal changes nothing |
| Admin.DisabledIgnoresPassword | controllers/adminController.js:28-34 | a disabled account gets the same refusal whatever password is sent |
| Admin.WrongPasswordLooksUnknown | controllers/adminController.js:22-40 | a wrong password gets the same reply as an unknown username |
| Admin.NormalizePhone | controllers/adminController.js:92 | the stored phone starts with "+91": unchanged when it does already, prefixed otherwise |
| Admin.NormalizeIdempotent | controllers/adminController.js:92 | normalising twice is normalising once, and a number typed with or without "+91" is stored alike |
| Admin.NormalizeCollisions | controllers/adminController.js:92-102 | two inputs are stored as the same phone exactly when they are equal or one is the other with "+91" in front |
| Admin.NewEmployee | controllers/adminController.js:104-111 | a new employee has the normalised phone, the given or default department, the designation when given, marital status "N/A", role govt, and is not verified; the controller's createdByAdmin, profileComplete and verificationStatus are not schema paths and are not stored |
| Admin.CreateEmployee | controllers/adminController.js:81-129 | a missing phone gives 400; a normalised phone that an employee already has gives 400; otherwise exactly one employee is appended |
| Admin.CreateKeepsPhonesUnique | controllers/adminController.js:94-113 | creating employees keeps their stored phones unique |
| Admin.VerifyEmployee | controllers/adminController.js:195-245 | an action other than verify or reject gives 400 and an unknown employee 404; every existing employee is then refused as incomplete, because profileComplete is never stored |
| Admin.Skip | controllers/adminController.js:150 | for a page of at least 1 and a non-negative limit the skip is not negative |
| Admin.Pages | controllers/adminController.js:165 | the page count is absent exactly for a limit of 0; otherwise it is the least number of pages of that size holding all records, and 0 exactly when there are none |
| Admin.PageOf | controllers/adminController.js:152-156 | a negative skip is refused; a skip past the end gives an empty page; otherwise a full page is the slice of that many records from the skip |
| Admin.PagesCover | controllers/adminController.js:150-165 | pages 1 to the page count, joined, are exactly the whole list: nothing is skipped or shown twice |
| Admin.JoinPrefix | controllers/adminController.js:150-156 | the first k pages joined are the first k × limit records |
| Auth.FindAccount | controllers/authController.js:20 | the first account of that collection with the phone, or none exactly when no such account exists |
| Auth.AccountExists | controllers/buyerAuthController.js:8-34 | buyerExists and vendorExists: a missing phone gives 400 exactly; an unknown phone gives 404 exactly; a known one replies with its stored role |
| Auth.CodeFor | controllers/buyerAuthController.js:46-56 | every stored code has six decimal digits; the farmers' and vendors' controllers and returning buyers and employees get "000000"; the users' controller and new buyers and employees get the generated number |
| Auth.Fresh | controllers/authController.js:20-23 | a new account holds the code and its expiry, is not verified, and carries the role each controller gives (the users' role from the request, none for farmers, buyer, vendor, govt with the employee schema defaults) |
| Auth.Reissued | controllers/authController.js:24-27 | a returning account gets the new code and expiry and keeps its verification, phone and profile; only the users' controller overwrites the role |
| Auth.SendOtp | controllers/authController.js:6-46 | for each of the five controllers: a missing phone (or, for users, role) gives 400; a users' role outside the enum fails the save; otherwise the first account with the phone is given a new code expiring in ten minutes, or a new account is appended; the users' controller then sends the SMS, and a refused SMS gives 500 with the code already stored |
| Auth.Redeemed | controllers/authController.js:69-72 | a redeemed account has its code and expiry cleared, is verified, and keeps its phone, role and profile |
| Auth.Completion | controllers/authController.js:82 | the login reply reports the profile as complete exactly when the controller's fields are filled; the employees' controller reports nothing |
| Auth.VerifyOtp | controllers/authController.js:49-95 | for each controller: a missing phone or code gives 400; an unknown phone 404; a wrong or expired code 400 and nothing changes; otherwise the account is redeemed and the reply carries the profile completion |
| Auth.CodeWindow | controllers/authController.js:15-16 | an issued code is accepted exactly when it is the code sent and at most ten minutes have passed, the expiry instant included |
| Auth.NoReplay | controllers/authController.js:64-72 | once redeemed, no code is accepted until a new one is issued |
| Auth.LatestCodeWins | controllers/authController.js:24-27 | after a second sendOtp only the newer code is accepted |
| Auth.FixedCodeLogsIn | controllers/farmerAuthController.js:16-26 | on the farmers' and vendors' controllers, and for every returning buyer or employee, "000000" is accepted for ten minutes after a code is requested |
| Auth.RedeemKeepsCompletion | controllers/authController.js:69-87 | logging in neither fills nor empties the profile |
| Auth.LoginKeepsPhonesUnique | controllers/authController.js:20-27 | sendOtp creates an account only for a phone its collection lacks, and no step changes a phone, so phones stay unique per collection |
| Auth.SetGiven | controllers/authController.js:104-108 | an undefined value is dropped from the update and keeps the stored path; a given one replaces it; no other path changes |
| Auth.UpdateUserProfile | controllers/authController.js:98-116 | the users' update sets the given name, Aadhaar number and address and replies success even when no user has the id |
| Auth.UpdateFarmerProfile | controllers/farmerAuthController.js:100-134 | the farmers' update sets the given name, Aadhaar number and address, and an unknown id gives 404 |
| Auth.FarmerProfileCompletes | controllers/farmerAuthController.js:84-114 | a farmer who gave all three personal fields logs in with a complete profile |
| Auth.UpdateBuyerProfile | controllers/buyerAuthController.js:127-166 | all three fields are required; an email another buyer holds gives 400; an unknown id 404; otherwise only that buyer's business fields are set |
| Auth.BuyerUpdateKeepsEmailsUnique | controllers/buyerAuthController.js:138-152 | a successful buyer update keeps emails unique and leaves the buyer's profile complete |
| Auth.Whitelist | controllers/govtAuthController.js:155-172 | the update holds exactly the allowed paths present in the body, with their values |
| Auth.BuildUpdates | controllers/govtAuthController.js:165-172 | the loop over the allowed paths builds exactly the whitelisted body |
| Auth.UpdateGovtProfile | controllers/govtAuthController.js:148-213 | a token whose employee id is absent or differs from the body's gives 401; no allowed path gives 400; a marital status outside the enum fails validation; an unknown id 404; otherwise the allowed paths are set and every other path is kept |
| Auth.DuplicateKeyMessage | controllers/govtAuthController.js:207-209 | the duplicate-key reply names the first key of the pattern, or "field" |
| Auth.WhitelistAvoidsUniquePaths | controllers/govtAuthController.js:155-162 | the update never writes phone or employeeId, the uniquely indexed paths |
| Auth.GovtUpdateKeepsOtherPaths | controllers/govtAuthController.js:155-196 | paths outside the whitelist, such as phone, role or department, never change through this update |

## Left out

- Concurrency: interleaved bids and overlapping runs of the settlement job are not modelled. Each handler is one sequential step, and the conditional update in placeBid is atomic.
- Scheduling of the settlement job by node-cron, and its single catch-all error boundary.
- Failed writes: a storage failure other than a schema or unique-index refusal. Every handler's catch-all 500 reply is modelled only where a schema rule or index triggers it.
- I/O and foreign code:
  - JWT signing and checking;
  - Twilio SMS sending, whose outcome is the `smsDelivered` parameter of `Auth.SendOtp`;
  - QR-code generation in submitGrading;
  - Socket.IO notifications after a bid;
  - Mongoose `populate`.
  These are left out because they do not change the modelled state.
- The clock and `Math.random` are parameters. The bcrypt comparison is a function parameter.
- Text handling: `trim`, lower-casing and regular-expression search are not modelled. Strings are compared as given.
- Local time: daylight-saving changes are not modelled. Local time is a fixed offset from UTC.
- Floating point:
  - amounts and quantities are integers;
  - `toFixed` on the total area is presentation only;
  - `toLocaleString` month labels are presentation only.
- Schema enums: enum strings are datatypes. Where a handler saves with validation, a value outside an enum is modelled as a refused input and the save fails. `CropOutputs.UpdateCropOutputStatus` runs no validators, and its stored status may be null or any string.
- Type casts: a non-numeric or malformed id, date or number in a request is not modelled. Neither is Mongoose's cast of a string to a number or date.
- Bidding.Screen: the amount is parsed with `parseFloat`. A fractional amount is not modelled, and an amount that does not parse is modelled as a missing one.
- Dangling references are not modelled: an id stored in a document always names an existing document, or the model says what the handler does when it does not.
- Orders.CreateOrder: the "Invalid rental dates" reply is modelled only for a missing date. The second stock check of a purchase repeats the first and is never reached.
- Farm.Stats: the alert count (controllers/farmController.js:158) is not modelled. The Alert collection is not part of this model.
- Farm.RecordExpense: the `quantity` default is not modelled, because the create always fails.
- Auth.UpdateFarmerProfile: the `coordinates` path is not modelled.
- Quality.SubmitGrading:
  - `qualityParams` and the QR code are not modelled;
  - the certificate fields the QR payload would show are not modelled.
- QualityModel.PreSave: a collision of two random certificate numbers on the unique index is not modelled.
- Admin.VerifyEmployee: the verify and reject branches are not modelled, because no stored employee can reach them.
- Listings that only read are not modelled:
  - getAllEmployees' status and search filters (only its pagination arithmetic is modelled);
  - getDashboardStats, getEmployeeById, getAdminProfile;
  - the getProfile handlers;
  - getMySales, getSaleById;
  - getMSPByCrop;
  - getMyCropOutputs, getCropOutputById;
  - getFarmerFields;
  - getVendorOrders, getBuyerOrders;
  - getOffersForRequirement, getMyOffers, getRequirementById;
  - getFarmerRequests, getRequestDetails, searchRequestByLotId;
  - getOfficerRequests, getGradingStats;
  - getMonthlyStats.
  Each is a filter, sort or aggregation like the ones modelled.
- deleteEmployee in controllers/adminController.js:281 removes an employee by id. It is a plain delete like `Requirements.DeleteRequirement`.
- updateField in controllers/farmController.js:107-128 copies the request body into the field. It is a generic update like `Requirements.UpdateRequirement`.
- The updateProfile handler of controllers/vendorAuthController.js:197-216 is not modelled.
- The updateProfile handler of controllers/govtAuthController.js:122-145 is not modelled. Both copy request fields into the account, like `Auth.UpdateUserProfile`.
- models/Counter.js and models/Admin.js are not part of this model. The lot counter is the database field `lotCounter`. An administrator is a record with a username, a password hash, an active flag and a last-login time.
