# Billing, digests and small protocols: a verified model

Dafny models of the parts of this product where an invariant is relied on but
never written down, with proofs of what the code promises.

- **Billing** (`Billing*.dfy`, `Dates.dfy`, `Calendar.dfy`, `Pricing.dfy`,
  `Money.dfy`). Orders, tenants, referrals, promo codes, partners, earnings and
  targets are one `State`; each operation is a function on it, and
  `BillingDb.Database` performs the same operations step by step on tables
  updated in place, each method proved to end in the state its function gives.
  The invariant (`BillingInvariants.Valid`) is kept by all fifteen operations
  in `BillingRuns`, in any order and with any clock readings, backwards ones
  included. What each operation does is stated in the fields of its tables, apart
  from the functions that compute it: a checkout in `BillingCheckout`, a payment in
  `BillingPayments`, plans, refunds and paused targets in `BillingPlans`, codes in
  `BillingCodes` and `BillingTrials`. Rows of a table that only grows are numbered
  by their position.
- **Digests** (`DigestWindows.dfy`, `DigestCards.dfy`). Which time each digest
  covers over any run of builds, and how events are folded into cards.
- **Protocols and caches** (`MapLimited.dfy`, `Polling.dfy`, `Embeddings.dfy`,
  `Delivery.dfy`, `Uuid.dfy`).
- **Printers and parsers** (`Tokens.dfy`, `Base64Url.dfy`, `Csv.dfy`,
  `Money.dfy`, `Decimal.dfy`).

`dafny verify dfyconfig.toml` checks the whole project.

## Where the code and its comments differ

The models follow the code. Each point is a lemma.

- A payment sets the bought plan at once, even when the bought time is queued.
  `BillingPlans.PlanAfterPayment` gives the exact condition for the plan to be
  the one paid time covers, and `BillingExamples.PaidYetFree` a run in which the
  daily job sends a customer to Free right after paying.
- The daily job is documented for every tenant that ever paid; a tenant all of
  whose payments have their refund asked for is passed over and keeps its plan
  (`BillingPlans.ExpiryMeetsPlanExactly`, `BillingExamples.RefundAskedKeepsPlan`).
- A trial code is documented as once per tenant; only the last code is
  remembered, so two codes can alternate without end
  (`BillingTrials.TrialCodeAgainExactly`, `BillingTrials.TrialCodesAlternate`),
  and a trial code that a tenant arrived with is refused on its first redemption
  as already used (`BillingTrials.RememberedCodeWorksExactly`).
- A partner is documented to earn on its customers' payments; redeeming a trial
  code replaces the code a customer came with, and the partner loses it
  (`BillingTrials.CustomerStaysWithPartner`, `BillingExamples.PartnerLosesItsCustomer`).
- A partner's months are documented as running from the customer's first
  payment; they run from the first payment that is still paid
  (`BillingTerms.PartnerWindowExactly`, `BillingExamples.PartnerEarnsAfterItsMonths`).
- The early price is documented as never below 40% of the full price; two
  rouble prices and one dollar price are (`Pricing.TableBelowFortyPercent`).
  Nor is 60% off the deepest discount any combination gives, because the cap is
  rounded down (`Pricing.CapIsExceededExactly`).
- A tenant that holds an early seat is documented not to take a second one when
  it renews; seats are counted in orders, so it does
  (`BillingTerms.SeatsCountTenantsExactly`, `BillingTerms.RenewalTakesASeat`).
- `addMonths` is not monotone by the millisecond (`Dates.AddMonthsSwaps` says
  exactly when two instants change places, `Dates.AddMonthsSwapExample` names two).
- A digest is documented as covering the time since the last one. Monthly
  reports share the table and move that point forward, so the time between the
  last regular digest and the end of the month is in no later one
  (`DigestWindows.NoInstantIsLost` has the exact condition,
  `DigestWindows.RestOfTheMonthIsLost` a run).
- An urgent digest is documented to be unique by its event's instant; of two
  urgent events of one instant the second is sent in none
  (`DigestWindows.UrgentIsReportedExactly`, `DigestWindows.SameInstantIsLost`).
- An urgent rule is documented to stay out of the market section; urgent events
  are ranked and shown there like any other
  (`DigestCards.MarketEventShownExactly`, `DigestCards.UrgentRuleIsShown`).
- Identifiers sort by creation only while the clock stays within 48 bits
  (`Uuid.WrapsAtTheEnd`).

## Model

| member | source | states |
|---|---|---|
| Calendar.YearsBeginWhereEcmaScriptSays | packages/domain/src/billing/dates.ts:2-12 | laying the months end to end puts every 1 January where the closed form of ECMA-262 puts it |
| Dates.AddMonthsInPlace | packages/domain/src/billing/dates.ts:2-12 | the in-place steps on a copied date end on the clamped date |
| Dates.AddMonthsLands | packages/domain/src/billing/dates.ts:2-12 | exactly n calendar months on, day = min(day, last day), same time of day |
| Dates.AddMonthsLater | packages/domain/src/billing/dates.ts:2-12 | strictly later for n at least 1 |
| Dates.AddMonthsTwice | packages/domain/src/billing/dates.ts:2-12 | two steps never overshoot one, fall at most three days short, and agree exactly when the middle month clamps nothing the last keeps |
| Dates.AddMonthsBack | packages/domain/src/billing/dates.ts:2-12 | forward and back is the identity exactly when the day was not clamped |
| Dates.AddMonthsMonotoneByDay | packages/domain/src/billing/dates.ts:2-12 | a later calendar day stays no earlier |
| Dates.AddMonthsSwaps | packages/domain/src/billing/dates.ts:2-12 | when two instants change places, exactly |
| Dates.AddMonthsSwapExample | packages/domain/src/billing/dates.ts:2-12 | 30 January 23:00 and 31 January 00:00 change places on the way to February |
| Pricing.Quote | packages/domain/src/billing/pricing.ts:99-130 | the loop computes the quote of the specification |
| Pricing.QuoteIsMinimum | packages/domain/src/billing/pricing.ts:99-142 | the amount is the minimum of the table price and the candidates; a code is named exactly when some discount beat the table, and it is the first to attain the minimum |
| Pricing.QuoteIgnoresOrder | packages/domain/src/billing/pricing.ts:99-119 | order and repetition of discounts do not matter |
| Pricing.QuoteNeverRaised | packages/domain/src/billing/pricing.ts:99-119 | more discounts never raise the price |
| Pricing.QuoteBounds | packages/domain/src/billing/pricing.ts:99-130 | positive, at most the table price, at least the lower of table price and rounded cap |
| Pricing.CandidateIsRounded | packages/domain/src/billing/pricing.ts:73-142 | a campaign counts from the full price, a code from the table price for the months it covers; rounded half up, then capped |
| Pricing.TableBelowCap | packages/domain/src/billing/pricing.ts:41-53 | the table is below the cap as the code rounds it exactly for the early rouble prices of six and twelve months |
| Pricing.TableBelowFortyPercent | packages/domain/src/billing/pricing.ts:41-50 | the table is below 40% of the full price exactly there and for the early dollar price of twelve months |
| Pricing.CapIsExceededExactly | packages/domain/src/billing/pricing.ts:52-119 | some discounts take off more than 60% exactly where 40% of the full price is no whole number or the early rouble price is below it |
| Pricing.TablesFollowPlan | packages/domain/src/billing/pricing.ts:1-50 | the monthly prices of the launch plan, each term within four per cent of its documented discount, and which longer term costs more a month, exactly |
| Money.ParseOfFormat | apps/web/src/lib/yookassa.ts:163-181 | every positive amount printed is read back |
| Money.ParseExactly | apps/web/src/lib/yookassa.ts:163-181 | digits with at most two behind a point are read as the amount they write, and no other text is |
| Money.OutcomeExactly | apps/web/src/lib/yookassa.ts:136-161 | which payments mean anything, and which of them that the order was paid |
| Money.EventKeyInjective | apps/web/src/lib/yookassa.ts:149-161 | a key names one payment and one final status, for all payment identifiers |
| Billing.LatestPaid | packages/domain/src/billing/orders.ts:527-542 | the result is a paid order that ends after now and no other such order ends later |
| Billing.LatestRefundable | packages/domain/src/billing/orders.ts:297-310 | the result is refundable and no refundable order was paid later |
| Billing.FirstPaidAt | packages/domain/src/billing/affiliate.ts:75-87 | the earliest payment time of the tenant's still-paid orders that are not free months, or now if there is none |
| BillingInvariants.KeepsOnPayOrder | packages/domain/src/billing/orders.ts:214-230 | marking an order paid keeps periods disjoint and each code's uses exact |
| BillingInvariants.KeepsOnReward | packages/domain/src/billing/referral.ts:176-251 | rewarding keeps the twelve-month bound, the bound by paying friends, and disjoint periods |
| BillingInvariants.KeepsOnNotification | packages/domain/src/billing/orders.ts:171-235 | a notification keeps the whole invariant and rows only move forward |
| BillingRuns.StepKeeps | packages/domain/src/billing/orders.ts:81-392 | each of the fifteen operations keeps the invariant, and rows only move forward |
| BillingTheorems.StatusMovesOneStep | packages/domain/src/billing/orders.ts:171-352 | one operation takes a status at most one step along created, paid, refund requested, refunded or created, failed, and which operation it is |
| BillingTheorems.RefundsAreAskedFor | packages/domain/src/billing/orders.ts:292-352 | in any run an order is refunded only after its tenant asked for a refund and it was confirmed after that |
| BillingRuns.RunKeeps | packages/domain/src/billing/orders.ts:81-392 | so does every run |
| BillingTheorems.PaidTimeIsDisjoint | packages/domain/src/billing/orders.ts:482-542 | in every reachable state paid periods are non-empty and disjoint, so at most one covers an instant and the tie-break by payment time never matters |
| BillingTheorems.PaidTimeGrowsAtEnd | packages/domain/src/billing/orders.ts:171-235 | an operation adds at most one paid row to a tenant, where its paid time ended |
| BillingTheorems.PaidTimeTiles | packages/domain/src/billing/orders.ts:163-170 | a tenant that pays before its time ends and asks for no refund has no gap |
| BillingTheorems.RetriesAreNoOps | packages/domain/src/billing/orders.ts:186-200 | any run ends where the run without repeated (provider, key) deliveries ends |
| BillingTheorems.PaidOnlyByMatchingPayment | packages/domain/src/billing/orders.ts:198-224 | an order leaves created only through its own notification under a new key, and is paid only with exactly its amount |
| BillingTheorems.PaidOnce | packages/domain/src/billing/orders.ts:200-224 | amount, payment time and period start of a paid order never change again |
| BillingTheorems.CheckoutPaymentApplies | apps/web/src/lib/yookassa.ts:77-181 | a payment of any printed amount is applied on first delivery exactly when the amount is the order's, so what checkout sends is never a mismatch |
| BillingTheorems.GrantAppliesExactly | packages/domain/src/billing/orders.ts:244-285 | a manual payment is refused only when its own key was used |
| BillingTheorems.GrantNeverFails | packages/domain/src/billing/orders.ts:244-285 | which cannot happen while notifications come from the checkout provider |
| BillingPayments.NotificationDecides | packages/domain/src/billing/orders.ts:171-212 | which of the five answers a notification gets, exactly, and what the tables are after each of the four that pay nothing |
| BillingPayments.PaymentEffects | packages/domain/src/billing/orders.ts:214-235 | what an applied payment does to every table: its order's row and period, the payer's plan, one use of the code, the payer's referral, at most one free month, given exactly when one is owed and fewer than twelve were given, at most this order's earning, and nothing else |
| BillingPayments.PaymentEarnsExactly | packages/domain/src/billing/affiliate.ts:57-106 | it earns exactly when it is money, its tenant remembers a partner's code and is inside that partner's months; the partner, the rounded share and the date |
| BillingPayments.GrantRecords | packages/domain/src/billing/orders.ts:244-285 | a grant adds an order of exactly what was granted and pays it, or leaves it unpaid when its key was used |
| BillingPlans.PlanAfterPayment | packages/domain/src/billing/orders.ts:214-228 | the plan set at once is the covering plan exactly when nothing was queued or it is the same plan |
| BillingExamples.PaidYetFree | packages/domain/src/billing/orders.ts:364-392 | a run from the empty tables in which a customer pays for Pro and is moved to Free by the next daily job |
| BillingPlans.PauseKeepsOldest | packages/domain/src/billing/orders.ts:452-480 | of a tenant's targets neither deleted, paused nor self as many as the limit stay, or all there are, none newer than a paused one; every other row stays |
| BillingPlans.ExpiryMeetsPlans | packages/domain/src/billing/orders.ts:364-392 | every live tenant with a paid or refunded order has the plan of the order that covers now, or Free; those moved to Free, and only they, have their newest targets beyond the limit paused and are reported, once; everyone else is untouched |
| BillingPlans.ExpiryMeetsPlanExactly | packages/domain/src/billing/orders.ts:354-392 | a live tenant that ever paid has the covering plan after the job exactly when it has a paid or refunded order or was on Free |
| BillingExamples.RefundAskedKeepsPlan | packages/domain/src/billing/orders.ts:364-392 | a run in which a tenant that asked its only payment back keeps the plan at any later time |
| BillingPlans.ExpiryIsIdempotent | packages/domain/src/billing/orders.ts:364-392 | a second run at the same time changes nothing and reports nobody |
| BillingPlans.RefundSettles | packages/domain/src/billing/orders.ts:331-352 | a confirmed refund ends that order's time, gives the plan other paid time covers, pauses the newest targets if that is Free, and changes nobody else; any other order is not found |
| BillingPlans.RefundWindow | packages/domain/src/billing/orders.ts:292-324 | the latest checkout or manual payment of the last fourteen days is marked, refused exactly when there is none |
| BillingCheckout.CheckoutRefusesExactly | packages/domain/src/billing/promo.ts:45-116 | a checkout is refused for its code exactly when no row of the typed code allows tenant, plan, term and time, with uses left and money off |
| BillingCheckout.CheckoutPrice | packages/domain/src/billing/orders.ts:81-141 | the order is what was asked for, unpaid, at the lowest of the table price and the prices of the rows open to it: the typed code's, the remembered one's and the campaigns'; a code is named exactly when a row lowered the price; the early table is used exactly for a holder of a paid seat or while fewer orders have a seat than there are seats |
| BillingCheckout.OpenRowsAreCompared | packages/domain/src/billing/promo.ts:90-106 | the discounts compared are exactly those of the open rows |
| BillingCodes.ReferralsAndUsesAreBounded | packages/domain/src/billing/referral.ts:176-251 | one referral row per friend, never self-invited, at most twelve free months and at most the paying friends, uses equal orders ever paid |
| BillingCodes.AcquisitionHappensOnce | packages/domain/src/billing/referral.ts:90-137 | recording a source never hits the unique index and happens once |
| BillingCodes.AcquisitionExactly | packages/domain/src/billing/referral.ts:90-170 | who counts as invited, by whom, and who keeps a promo code, exactly: a tenant without a source, no older than a day; a live inviter other than itself and without its email; four weeks of trial |
| BillingCodes.FriendRewardsOnce | packages/domain/src/billing/referral.ts:176-251 | a friend's payment rewards once and adds exactly one free month below twelve |
| BillingCodes.ReferralCodeIsStable | packages/domain/src/billing/referral.ts:28-56 | an invite code stays with its tenant through any run and nobody else has it |
| BillingCodes.ReferralCodeExactly | packages/domain/src/billing/referral.ts:28-56 | a code is kept, else the first draw nobody has is stored, and the answer fails exactly when there is none |
| BillingTrials.TrialCodeOnce | packages/domain/src/billing/promo.ts:140-178 | the trial never gets shorter and the remembered code is refused again |
| BillingTrials.RedeemExactly | packages/domain/src/billing/promo.ts:140-178 | a code is redeemed exactly when its row gives days and has not ended, nothing is paid and it is not the one remembered; the trial ends at the later of its old end and the days from now |
| BillingTrials.TrialCodesAlternate | packages/domain/src/billing/promo.ts:135-178 | two codes can be redeemed in turn any number of times, at any times before they end |
| BillingTrials.RememberedIsLastRedeemed | packages/domain/src/billing/promo.ts:155-178 | through any run a tenant remembers the code it came with until it redeems a trial code, and then the one redeemed last |
| BillingTrials.TrialCodeAgainExactly | packages/domain/src/billing/promo.ts:155-169 | through any run a redeemed code works again exactly when it has not ended, nothing is paid and another code was redeemed last |
| BillingTrials.RememberedCodeWorksExactly | packages/domain/src/billing/promo.ts:155-169 | through any run a code a tenant arrived with can be redeemed exactly when it is a trial code not ended, nothing is paid and another code was redeemed last |
| BillingTrials.CustomerStaysWithPartner | packages/domain/src/billing/affiliate.ts:62-73 | through any run a customer counts as the partner's whose code it redeemed last, and so stays with the partner it came through exactly until it redeems a code that is not that partner's |
| BillingExamples.PartnerLosesItsCustomer | packages/domain/src/billing/affiliate.ts:57-73 | a run in which a partner's customer redeems a trial code, pays, and the partner earns nothing |
| BillingCodes.WinbackOnce | packages/domain/src/billing/promo.ts:215-242 | no run gives a tenant a second win-back code |
| BillingCodes.WinbackDecides | packages/domain/src/billing/promo.ts:215-242 | a code is issued and the tenant marked exactly when it never was and the code is new; otherwise nothing changes |
| BillingTerms.FreeMonthTerms | packages/domain/src/billing/referral.ts:176-251 | the free month costs nothing, is of the plan paid for or Starter, starts as soon as no paid time or trial is cut short, and changes a plan only to what paid time then covers |
| BillingTerms.EarlyPriceStays | packages/domain/src/billing/orders.ts:56-79 | a tenant that paid the early price keeps it through any run without a refund request, whatever seats are left |
| BillingTerms.SeatsCountTenantsExactly | packages/domain/src/billing/orders.ts:42-60 | the seats counted are the tenants that hold one exactly when no tenant has two such orders |
| BillingTerms.RenewalTakesASeat | packages/domain/src/billing/orders.ts:42-60 | renewing at the early price adds a seat and no holder |
| BillingTerms.CampaignsBestFirst | packages/domain/src/billing/promo.ts:70-83 | running campaigns are tried from the largest percentage down |
| BillingTerms.WinbackCodeLives | packages/domain/src/billing/promo.ts:214-242 | through any run the code takes off 40% for two months and works for its tenant only, within seven days, until an order with it was paid |
| BillingTerms.PartnerCodeLives | packages/domain/src/billing/affiliate.ts:17-45 | through any run a partner's code takes 20% off three months for everyone, at any time |
| BillingTerms.EarnsInsideWindowExactly | packages/domain/src/billing/affiliate.ts:57-106 | a paid money order earns exactly when the code its customer remembers now is a partner's and its first still-paid payment is less than that partner's months ago |
| BillingCodes.EarningsFollowPayments | packages/domain/src/billing/affiliate.ts:57-106 | an earning is the rounded share of one paid money order, dated when it was paid |
| BillingCodes.PartnerWindowRestarts | packages/domain/src/billing/affiliate.ts:75-88 | after a refund the next payment earns although the partner's months after the refunded payment are over |
| BillingTerms.PartnerWindowExactly | packages/domain/src/billing/affiliate.ts:57-88 | the code decides as documented exactly when now is not between the end counted from the first payment ever and the end counted from the first one still paid |
| BillingTerms.PartnerWindowAsDocumented | packages/domain/src/billing/affiliate.ts:57-88 | so it does for every customer whose first payment was neither refunded nor asked back |
| BillingExamples.PartnerEarnsAfterItsMonths | packages/domain/src/billing/affiliate.ts:57-88 | a run in which a partner of twelve months earns twelve months after the first, refunded, payment |
| BillingDb.Database.CollectDiscounts | packages/domain/src/billing/promo.ts:90-106 | pushes the typed, remembered and running discounts the specification lists |
| BillingDb.Database.CreateOrder | packages/domain/src/billing/orders.ts:81-109 | the new state and answer of the specification |
| BillingDb.Database.ApplyPaymentNotification | packages/domain/src/billing/orders.ts:171-235 | the row updates in order end in the state and outcome of the specification |
| BillingDb.Database.RewardReferrer | packages/domain/src/billing/referral.ts:176-251 | likewise for the reward, and answers who was given a month |
| BillingDb.Database.RecordPartnerEarning | packages/domain/src/billing/affiliate.ts:57-106 | likewise for the earning, and answers what was earned now |
| BillingDb.Database.GrantManualPayment | packages/domain/src/billing/orders.ts:244-285 | likewise; the order stays even when refused |
| BillingDb.Database.RequestRefund | packages/domain/src/billing/orders.ts:292-324 | likewise |
| BillingDb.Database.ConfirmRefund | packages/domain/src/billing/orders.ts:331-352 | likewise |
| BillingDb.Database.SettleTenantPlan | packages/domain/src/billing/orders.ts:509-524 | likewise |
| BillingDb.Database.ExpirePaidPlans | packages/domain/src/billing/orders.ts:364-392 | the loop over tenants ends in the state and list of the specification |
| BillingDb.Database.GetReferralCode | packages/domain/src/billing/referral.ts:28-56 | the retry loop stores the first free draw |
| BillingDb.Database.RecordAcquisition | packages/domain/src/billing/referral.ts:90-137 | likewise |
| BillingDb.Database.RedeemTrialCode | packages/domain/src/billing/promo.ts:140-178 | likewise |
| BillingDb.Database.IssueWinbackCode | packages/domain/src/billing/promo.ts:215-242 | likewise; a clash of codes undoes the mark |
| DigestWindows.DigestStore.BuildPeriodDigest | packages/digest/src/build.ts:98-144 | the build, with its reassigned window, ends in the rows of the specification; its answer is the new last row with its cards, or the row that ended this hour or later with none |
| DigestWindows.DigestStore.BuildUrgentDigest | packages/digest/src/build.ts:150-171 | an urgent event that may be shown gets one row with an empty window at its own time, any other event none |
| DigestWindows.DigestStore.Write | packages/digest/src/build.ts:206-278 | answers the row of the window and channel, new exactly when there was none, and keeps rows unique by window and channel |
| DigestWindows.StepKeeps | packages/digest/src/build.ts:98-278 | builds, urgent digests, Telegram copies, monthly reports and new events keep the window invariant, and rows are never changed |
| DigestWindows.WindowsNeverOverlap | packages/digest/src/build.ts:98-144 | over any run period windows are equal or disjoint, one ends in any UTC hour, no event is reported in two windows, and each was chosen behind all regular rows then there |
| DigestWindows.WindowsFollow | packages/digest/src/build.ts:182-197 | without monthly reports each period window begins where the previous one ended, unless that is more than thirty days back |
| DigestWindows.EventIsReportedExactly | packages/digest/src/build.ts:98-120 | an event at a covered instant is in a period digest, at the end of any run, exactly when it was recorded and could be shown when the covering window was built |
| DigestWindows.UrgentIsReportedExactly | packages/digest/src/build.ts:146-171 | the row of an urgent event's instant and channel reports it exactly when no other urgent event of that instant was sent there before |
| DigestWindows.SameInstantIsLost | packages/digest/src/build.ts:146-171 | a run in which the second of two urgent events of one instant is in no digest |
| DigestWindows.UrgentNeverMovesWindows | packages/digest/src/build.ts:98-171 | leaving out every urgent digest of any run leaves the same regular rows, windows, channels and events |
| DigestWindows.NoInstantIsLost | packages/digest/src/build.ts:182-197 | the first window that ends after an instant covers it exactly when it ends within thirty days of it and no monthly report written before reaches past the instant |
| DigestWindows.MonthlyReportSkips | packages/digest/src/monthly.ts:958-997 | with a monthly report in the table the next build begins no earlier than the month's end, and leaves out what it would have covered without |
| DigestWindows.RestOfTheMonthIsLost | packages/digest/src/monthly.ts:958-997 | a run in which the end of January is in no period window |
| DigestWindows.NeverLongerThanAMonth | packages/digest/src/build.ts:182-197 | no window but a monthly report's is longer than thirty days |
| DigestWindows.BuildIsSilentExactly | packages/digest/src/build.ts:123-133 | a build adds nothing exactly when some regular row, monthly reports included, ends this hour or later |
| DigestWindows.BuildCoversExactly | packages/digest/src/build.ts:98-197 | any other build adds one row that ends now, begins at the last regular end but at most thirty days back, or the first time seven days back, thirty without an event, and reports exactly the events recorded in it that may be shown, on the channel the settings allow |
| DigestWindows.TelegramCopyExactly | packages/digest/src/build.ts:634-710 | a web-only digest gets one copy for Telegram with its window and events |
| DigestCards.SortBySorts | packages/digest/src/cards.ts:247-250 | sorting orders and permutes |
| DigestCards.SortByIsStable | packages/digest/src/cards.ts:95-119 | equal keys keep their order |
| DigestCards.FoldByTarget | packages/digest/src/cards.ts:133-161 | the map and the set of emitted events give one card per group at its first event |
| DigestCards.GroupWeight | packages/digest/src/cards.ts:211-236 | a group card accounts for its events exactly when enough members have a fact |
| DigestCards.MainCardsConserve | packages/digest/src/cards.ts:95-161 | the main cards account for every own event once |
| DigestCards.CardsInImportanceOrder | packages/digest/src/cards.ts:129-153 | cards stand where their most important event stood: urgent ones first, then by score |
| DigestCards.EveryEventOnOneCard | packages/digest/src/cards.ts:133-161 | each event is on exactly one card: alone if urgent or without target, else with all of its target |
| DigestCards.MainCardShowsGroup | packages/digest/src/cards.ts:95-236 | on both sides of the threshold a main card shows one group: one event with all its facts and notes, or the first facts of the first three and how many events there are beyond three, under the first event |
| DigestCards.MainCardsInOrder | packages/digest/src/cards.ts:95-161 | main cards come with urgent ones first and then by falling score |
| DigestCards.OwnEventOnOneCard | packages/digest/src/cards.ts:95-161 | each own event is behind exactly one main card, alone up to seven events or if it is urgent or about no target, else with all non-urgent ones of its target |
| DigestCards.MarketCardsAreBest | packages/digest/src/cards.ts:105-127 | at most six, by rank and then by time, the latest first, and no dropped event outranks a shown one |
| DigestCards.RankIsPosition | packages/digest/src/cards.ts:110-119 | sorting puts each event behind exactly those with a lower key and the earlier ones with its key |
| DigestCards.MarketEventShownExactly | packages/digest/src/cards.ts:105-119 | a market event is shown exactly when fewer than six are of a lower rank, of its rank and later, or before it with its rank and time; urgent or not |
| DigestCards.UrgentRuleIsShown | packages/digest/src/cards.ts:105-119 | an urgent rule alone in the market section is shown there |
| DigestCards.MarketIsSuffix | packages/digest/src/cards.ts:89-93 | the digest is the own cards followed by the market cards |
| MapLimited.StepKeeps | packages/discovery/src/discover.ts:206-225 | any worker's step keeps the pool consistent and shortens what is left |
| MapLimited.EverySchedule | packages/discovery/src/discover.ts:206-225 | under every schedule calls are made once each and in order, at most limit run at once, and steps are bounded |
| MapLimited.LimitIsReached | packages/discovery/src/discover.ts:223 | and on some schedule that many do run at once |
| MapLimited.WhenDone | packages/discovery/src/discover.ts:206-225 | at the end either a call was rejected and some worker threw, or the answers are the pointwise map in input order |
| MapLimited.WithoutWorkers | packages/discovery/src/discover.ts:223-224 | a limit of zero or less calls nothing and answers holes |
| Embeddings.Embed | packages/embeddings/src/index.ts:90-105 | the extractor gets the texts in order, cut to 4000 characters, 32 at a time; the answer is the vector of each text in input order |
| Embeddings.RowsOfFlatten | packages/embeddings/src/index.ts:142-158 | splitting undoes laying rows end to end |
| Embeddings.SplitRowsExactly | packages/embeddings/src/index.ts:142-158 | a tensor is accepted exactly when its shape is the one asked for, and then nothing is lost |
| Embeddings.FindKnown | packages/pipeline/src/embed.ts:142-165 | known are exactly the wanted hashes with a stored vector of the model |
| Embeddings.UniqueByHash | packages/pipeline/src/embed.ts:199-206 | one chunk for each hash not known |
| Embeddings.MissingAskedOnce | packages/pipeline/src/embed.ts:66-68 | the provider is asked once for each text without a stored vector and for no other |
| Embeddings.PlannedAt | packages/pipeline/src/embed.ts:129-141 | the plan is each item's chunks in turn, numbered from zero, with item, text and hash |
| Embeddings.WrittenExactly | packages/pipeline/src/embed.ts:66-80 | written is a row for exactly the planned chunks whose text is stored for the model or was answered |
| Embeddings.ChunkStore.EmbedPendingItems | packages/pipeline/src/embed.ts:54-88 | every chunk written has its own text's vector, reused or computed; a failing provider leaves the rows alone and an unanswered text its chunks unwritten; the report counts them |
| Uuid.Generator.Next | packages/core/src/id.ts:49-103 | the two module variables advance and the identifier is their layout |
| Uuid.FillBytes | packages/core/src/id.ts:73-93 | the array filled in place holds the big-endian layout |
| Uuid.IdsSortByStamp | packages/core/src/id.ts:73-103 | identifiers sort as timestamp modulo 2^48 and counter do, whatever the random bits |
| Uuid.IdentifiersIncrease | packages/core/src/id.ts:49-71 | for any readings in range each identifier sorts after all before it, and the largest reading so far is outrun by at most issued / 4096 |
| Uuid.StampsFollowClock | packages/core/src/id.ts:49-71 | a reading later than the stamp before is taken as it is and starts the counter; any other only counts on, 4096 to the millisecond |
| Uuid.IdentifiersTellTheTime | packages/core/src/id.ts:49-115 | the time read back is never before the clock reading, and is that reading if every earlier identifier's time is before it |
| Uuid.SameIdExactly | packages/core/src/id.ts:73-103 | two identifiers are the same exactly when their 48-bit times, counters and 62 random bits are |
| Uuid.VersionAndVariant | packages/core/src/id.ts:85-93 | version 7 and variant 10 as section 5.7 of RFC 9562 says |
| Uuid.TimestampReadsBack | packages/core/src/id.ts:111-115 | the 48-bit time is read back |
| Uuid.WrapsAtTheEnd | packages/core/src/id.ts:77-83 | of two identifiers less than 2^48 ms apart the later sorts behind exactly when the time stays in one 48-bit range |
| Base64Url.DecodeOfEncode | packages/delivery/src/email/tokens.ts:23-29 | bytes come back |
| Base64Url.EncodeHasNoPoint | packages/delivery/src/email/tokens.ts:23-35 | no point in encoded text |
| Base64Url.FromUtf8OfUtf8 | packages/delivery/src/email/tokens.ts:23-29 | text comes back from UTF-8 |
| Tokens.VerifiedToken | packages/delivery/src/email/tokens.ts:61-87 | the signed payload is what is read |
| Tokens.VerifiedExactly | packages/delivery/src/email/tokens.ts:69-87 | a token is read exactly when it is a part without a point followed by the signature of that part |
| Tokens.UnsignedIsInvalid | packages/delivery/src/email/tokens.ts:69-152 | any other token is answered "invalid" by both readers |
| Tokens.SameSignatureExactly | packages/delivery/src/email/tokens.ts:23-35 | two signatures are the same exactly when the keyed hashes are |
| Tokens.ActionTokenRoundTrip | packages/delivery/src/email/tokens.ts:61-103 | id, action and expiry come back if and only if the token has not expired and neither part is empty or holds the separator |
| Tokens.ActionTokenExpires | packages/delivery/src/email/tokens.ts:98-100 | afterwards the answer is expired |
| Tokens.UnsubscribeTokenRoundTrip | packages/delivery/src/email/tokens.ts:110-152 | an unsubscribe link comes back if and only if it has not expired and its identifier is neither empty nor holds the separator; which action links are read as that link, exactly |
| Csv.ParseCsv | apps/worker/src/leads/two-gis-csv.ts:25-57 | the character loop computes the specification's reading |
| Csv.ParseOfLines | apps/worker/src/leads/two-gis-csv.ts:25-57 | any mix of bare and quoted cells, of newlines with and without carriage returns, and with or without a final break is read line by line |
| Csv.LinesComeBackExactly | apps/worker/src/leads/two-gis-csv.ts:25-57 | such text gives its rows back exactly when every line has a cell, no last cell before a bare newline or the end of the text ends in a carriage return, and the text does not end in a lone empty cell |
| Csv.RoundTripExactly | apps/worker/src/leads-brief.ts:57-59 | so what the quoting writer wrote comes back exactly when each row has a cell and none ends in a carriage return |
| Polling.Poller.TakeTurn | apps/worker/src/telegram-polling.ts:26-38 | one turn advances the offset with the updates handed over |
| Polling.Poller.Loop | apps/worker/src/telegram-polling.ts:26-40 | whatever throws, updates are handled in order, none skipped and none twice |
| Polling.EveryUpdateIsReached | apps/worker/src/telegram-polling.ts:26-40 | turns that fetch something get through every update |
| Delivery.DigestRow.DeliverNow | packages/delivery/src/deliver.ts:134-219 | the row ends as the specification says |
| Delivery.AttemptReadsBack | packages/delivery/src/deliver.ts:85-91 | the attempt number survives the text for every number |
| Delivery.FoundExactly | packages/delivery/src/deliver.ts:128-132 | a reason counts an attempt exactly when somewhere in it the words are followed by a digit |
| Delivery.DecidedAfter | packages/delivery/src/deliver.ts:134-214 | from any retry the digest is decided within the tries left, waiting the table's delays in order |
| Delivery.DecidedByFourthCall | packages/delivery/src/deliver.ts:49-50 | decided by the fourth call, after waits of 5, 30 and 120 minutes |
| Delivery.DecidedExactly | packages/delivery/src/deliver.ts:49-219 | which refusals are retried, exactly: without a status, 429 and from 500 on, three times, after 5, 30 and 120 minutes; and what the row and the answer say in every other case |
| Delivery.OutageTakesFourCalls | packages/delivery/src/deliver.ts:49-50 | an outage is tried exactly four times with all three waits, and only then fails |
| Delivery.StuckExactly | packages/delivery/src/deliver.ts:168-177 | only an unconfigured sender leaves a pending digest as it was |

## Left out

- SQL and transaction isolation: tables are sequences and maps, each operation is one atomic step, `updatedAt` and audit payloads are dropped, and row identifiers are positions.
- Ties that SQL leaves open (`LIMIT 1` over equal keys, targets created in the same instant) are taken in table order; for paid time no tie can arise.
- The random draws of codes, the email comparison behind "the same person", the Free limit and the normalisation of a typed code (trim, upper case, pattern) are parameters.
- `closeEndedTrials`, `listTrialReminders`, `listWinbackCandidates`, `getBillingStatus` and the partner and referral reports: they only read or repeat `pauseExcessTargets`.
- Caps on early seats and on `maxUses`: neither is reserved at checkout, so no cap is claimed.
- Prices and rounding use exact rationals; `Number` rounding is not modelled, nor are amounts beyond exact integers or dates beyond ECMAScript's range.
- A profile without a version, and digest statistics, notices and texts are not modelled. A monthly report is its row: the month's window, web only; what it says is not modelled. How many cards a build makes of its events is a parameter of `DigestWindows`, and `DigestCards` has the cards.
- Texts, links, ages and target kinds on cards, and which kind of market event has which rank; relevance scores are real numbers, so NaN does not occur.
- `Delivery` models the regular digests; monthly reports repeat the same branches with other texts, and logging and the stamp on a profile are dropped.
- Base64url and UTF-8 decoding of malformed input is simplified (characters outside the alphabets are skipped, one replacement character per bad byte); tokens made here never are malformed. Unpaired surrogates do not exist in the model's text.
- The keyed hash of tokens and the text hash of chunks are function parameters; injectivity is assumed only for the latter.
- Embeddings.ChunkStore.EmbedPendingItems: takes the pending items, the chunker and the provider as given, the provider may fail or answer too little; choosing pending items is a query.
- Polling.Poller.Loop: an update without a numeric identifier is not modelled; Telegram's always have one. The waits between turns are dropped.
- Uuid.IdentifiersIncrease: clock readings are not negative and stay within 48 bits; `Uuid.IdsSortByStamp` covers what happens beyond.
- MapLimited.EverySchedule: a call either answers or is rejected, always the same way for the same item.
- The other commands, pages, source connectors and renderers of the repository.
