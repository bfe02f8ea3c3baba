/** What a free month, the early price, a win-back code and a partner's share amount to. */
module BillingTerms {
  import opened Wrappers
  import opened Pricing
  import opened Sequences
  import opened Billing
  import opened BillingInvariants
  import opened BillingRuns
  import opened BillingTheorems
  import opened BillingPlans
  import opened BillingCheckout
  import opened BillingCodes
  import Calendar
  import Dates

  // ---- The free month

  /** The earliest instant that is neither past nor inside the inviter's paid time or, without any, its trial. */
  ghost predicate StartsAsSoonAsFair(s: State, referrer: nat, start: int, now: int)
    requires referrer < |s.tenants|
  {
    && start >= now
    && (forall i :: 0 <= i < |s.orders| && PaidBy(s.orders[i], referrer) ==> s.orders[i].status.period.end <= start)
    && (start == now
        || EndsPaidTime(s.orders, referrer, start)
        || (start == s.tenants[referrer].trialEndsAt && NoPaidTimeAfter(s.orders, referrer, now)))
    && (NoPaidTimeAfter(s.orders, referrer, now) ==> start >= s.tenants[referrer].trialEndsAt)
  }

  ghost predicate EndsPaidTime(orders: seq<Order>, tenant: nat, at: int) {
    exists i :: 0 <= i < |orders| && PaidBy(orders[i], tenant) && orders[i].status.period.end == at
  }

  ghost predicate NoPaidTimeAfter(orders: seq<Order>, tenant: nat, now: int) {
    forall i :: 0 <= i < |orders| && PaidBy(orders[i], tenant) ==> orders[i].status.period.end <= now
  }

  /** The plan of the paid time it follows or, without any, the tenant's own, with Starter for Free. */
  ghost predicate HasPlanOf(s: State, referrer: nat, plan: Plan, start: int, now: int)
    requires referrer < |s.tenants|
  {
    if NoPaidTimeAfter(s.orders, referrer, now) then
      plan == if s.tenants[referrer].plan == Free then Starter else s.tenants[referrer].plan
    else
      exists i :: 0 <= i < |s.orders| && PaidBy(s.orders[i], referrer)
        && s.orders[i].status.period.end == start && s.orders[i].plan == plan
  }

  lemma RewardOrderIsFair(s: State, referrer: nat, now: int)
    requires referrer < |s.tenants|
    ensures var o := RewardOrder(s.orders, s.tenants[referrer], referrer, now);
      && o.status.Paid?
      && o == Order(referrer, o.plan, 1, 0, RUB, false, None, Referral,
                    Paid(Period(now, o.status.period.start, Dates.AddMonths(o.status.period.start, 1))))
      && StartsAsSoonAsFair(s, referrer, o.status.period.start, now)
      && HasPlanOf(s, referrer, o.plan, o.status.period.start, now)
  {
    hide Dates.AddMonths, LatestPaid;
    var latest := LatestPaid(s.orders, referrer, now);
    if latest.Some? {
      assert PaidBy(s.orders[latest.value], referrer);
    }
  }

  /**
   * A friend's first payment gives its inviter one month for nothing: of the
   * plan it pays for, after the time it paid for; or of Starter when it is on
   * Free, after its trial. A plan changes only when the month begins at once,
   * and then to the plan paid time covers.
   */
  lemma FreeMonthTerms(s: State, friend: nat, now: int)
    requires Valid(s) && InvitedBy(s, friend).Some?
    requires CountRewards(s.orders, InvitedBy(s, friend).value) < MAX_REFERRAL_MONTHS
    ensures var referrer, s' := InvitedBy(s, friend).value, RewardReferrer(s, friend, now);
      && referrer < |s.tenants| == |s'.tenants| && referrer != friend
      && |s'.orders| == |s.orders| + 1 && s'.orders[..|s.orders|] == s.orders
      && var o := s'.orders[|s.orders|];
      && o.status.Paid?
      && o == Order(referrer, o.plan, 1, 0, RUB, false, None, Referral,
                    Paid(Period(now, o.status.period.start, Dates.AddMonths(o.status.period.start, 1))))
      && StartsAsSoonAsFair(s, referrer, o.status.period.start, now)
      && HasPlanOf(s, referrer, o.plan, o.status.period.start, now)
      && (forall t :: 0 <= t < |s.tenants| ==> s'.tenants[t] == s.tenants[t].(plan := s'.tenants[t].plan))
      && (forall t :: 0 <= t < |s.tenants| && s'.tenants[t] != s.tenants[t] ==>
            t == referrer && s.tenants[t].plan == Free
            && IsPlanAt(s'.orders, t, now, s'.tenants[t].plan) && s'.tenants[t].plan != Free)
      && (s.tenants[referrer].plan == Free && o.status.period.start == now ==> s'.tenants[referrer].plan == o.plan)
  {
    hide Dates.AddMonths, LatestPaid, PendingReferral, CountRewards, RewardOrder, IsPlanAt, Follows,
      StartsAsSoonAsFair, HasPlanOf;
    var referrer, s' := InvitedBy(s, friend).value, RewardReferrer(s, friend, now);
    assert referrer < |s.tenants| && referrer != friend by { ReferralsAreKnown(s, friend); }
    var o := RewardOrder(s.orders, s.tenants[referrer], referrer, now);
    RewardOrderIsFair(s, referrer, now);
    Dates.AddMonthsLater(o.status.period.start, 1);
    StartsNoEarlier(s, referrer, o.status.period.start, now);
    if s.tenants[referrer].plan == Free && o.status.period.start <= now {
      KeepsOnReward(s, friend, now);
      ReferrerCovered(s, s', referrer, o, now);
    }
  }

  lemma ReferralsAreKnown(s: State, friend: nat)
    requires Valid(s) && InvitedBy(s, friend).Some?
    ensures InvitedBy(s, friend).value < |s.tenants| && InvitedBy(s, friend).value != friend
  {
  }

  lemma StartsNoEarlier(s: State, referrer: nat, start: int, now: int)
    requires referrer < |s.tenants| && StartsAsSoonAsFair(s, referrer, start, now)
    ensures start >= now
  {
  }

  lemma ReferrerCovered(s: State, s': State, referrer: nat, o: Order, now: int)
    requires Valid(s') && s'.orders == s.orders + [o] && o.tenant == referrer && o.status.Paid?
    requires o.status.period.start <= now < o.status.period.end
    ensures IsPlanAt(s'.orders, referrer, now, o.plan)
  {
    hide CoveringOrder;
    assert s'.orders[|s.orders|] == o;
    CoveringIsUnique(s'.orders, referrer, now, |s.orders|);
    CoveringIsPlanAt(s'.orders, referrer, now);
  }

  // ---- The early price

  predicate HoldsEarly(orders: seq<Order>, tenant: nat) {
    exists i :: 0 <= i < |orders| && PaidBy(orders[i], tenant) && orders[i].isEarly
  }

  /** A tenant that paid the early price keeps it, whatever seats are left, until it asks for a refund. */
  lemma {:induction false} EarlyPriceStays(s: State, trace: seq<Event>, tenant: nat, freeLimit: nat, earlySeats: int)
    requires Valid(s) && HoldsEarly(s.orders, tenant)
    requires forall i :: 0 <= i < |trace| ==> trace[i].op != OpRequestRefund(tenant)
    ensures HoldsEarly(Run(s, trace, freeLimit).orders, tenant)
    ensures IsEarlyEligible(Run(s, trace, freeLimit).orders, tenant, earlySeats)
    decreases |trace|
  {
    hide Valid, Step;
    if trace != [] {
      var next := Step(s, trace[0], freeLimit);
      StepKeeps(s, trace[0], freeLimit);
      PaidTimeGrowsAtEnd(s, trace[0], tenant, freeLimit);
      var i :| 0 <= i < |s.orders| && PaidBy(s.orders[i], tenant) && s.orders[i].isEarly;
      PaidRowStays(s, next, tenant, trace[0].now, i);
      EarlyPriceStays(next, trace[1..], tenant, freeLimit, earlySeats);
    }
  }

  lemma PaidRowStays(s: State, next: State, tenant: nat, now: int, i: nat)
    requires Follows(s, next) && PaidTimeStep(s.orders, next.orders, tenant, now)
    requires i < |s.orders| && PaidBy(s.orders[i], tenant)
    ensures i < |next.orders| && PaidBy(next.orders[i], tenant) && next.orders[i].isEarly == s.orders[i].isEarly
  {
    hide LatestPaid;
    assert OrderFollows(s.orders[i], next.orders[i]);
    if !SamePaid(s.orders, next.orders, tenant) {
      var id :| ExtendsPaid(s.orders, next.orders, tenant, now, id);
    }
  }

  /** The tenants that hold an early seat. */
  function SeatHolders(orders: seq<Order>): set<nat> {
    set i | 0 <= i < |orders| && IsSeat(orders[i]) :: orders[i].tenant
  }

  ghost predicate OneSeatEach(orders: seq<Order>) {
    forall i, j :: 0 <= i < j < |orders| && IsSeat(orders[i]) && IsSeat(orders[j]) ==>
      orders[i].tenant != orders[j].tenant
  }

  /** The count of seats is the number of tenants that hold one exactly when no tenant has two such orders. */
  lemma {:induction false} SeatsCountTenantsExactly(orders: seq<Order>)
    ensures CountEarlySeats(orders) >= |SeatHolders(orders)|
    ensures CountEarlySeats(orders) == |SeatHolders(orders)| <==> OneSeatEach(orders)
  {
    hide IsSeat, SeatHolders, OneSeatEach, CountEarlySeats;
    if orders == [] {
      NoSeats();
    } else {
      var n := |orders| - 1;
      SeatsCountTenantsExactly(orders[..n]);
      assert orders[..n] + [orders[n]] == orders;
      HoldersAppend(orders[..n], orders[n]);
      OneSeatAppend(orders[..n], orders[n]);
      SeatsAppend(orders[..n], orders[n]);
    }
  }

  lemma NoSeats()
    ensures CountEarlySeats([]) == 0 && SeatHolders([]) == {} && OneSeatEach([])
  {
  }

  lemma SeatsAppend(orders: seq<Order>, o: Order)
    ensures CountEarlySeats(orders + [o]) == CountEarlySeats(orders) + if IsSeat(o) then 1 else 0
  {
    CountAppend(orders, o, (o: Order) => IsSeat(o));
  }

  lemma HoldersAppend(orders: seq<Order>, o: Order)
    ensures SeatHolders(orders + [o]) == SeatHolders(orders) + if IsSeat(o) then {o.tenant} else {}
  {
    hide IsSeat;
    var orders' := orders + [o];
    forall t | t in SeatHolders(orders) ensures t in SeatHolders(orders') {
      var i :| 0 <= i < |orders| && IsSeat(orders[i]) && orders[i].tenant == t;
      assert orders'[i] == orders[i];
    }
    if IsSeat(o) {
      assert orders'[|orders|] == o;
    }
  }

  lemma OneSeatAppend(orders: seq<Order>, o: Order)
    ensures OneSeatEach(orders + [o]) <==>
      OneSeatEach(orders) && (IsSeat(o) ==> o.tenant !in SeatHolders(orders))
  {
    hide IsSeat;
    var orders' := orders + [o];
    if OneSeatEach(orders') {
      forall i, j | 0 <= i < j < |orders| && IsSeat(orders[i]) && IsSeat(orders[j])
        ensures orders[i].tenant != orders[j].tenant
      {
        assert orders'[i] == orders[i] && orders'[j] == orders[j];
      }
      forall i | 0 <= i < |orders| && IsSeat(orders[i]) && IsSeat(o)
        ensures orders[i].tenant != o.tenant
      {
        assert orders'[i] == orders[i] && orders'[|orders|] == o;
      }
    }
  }

  /** Renewing at the early price takes a second seat: the count goes up, the tenants that hold one stay the same. */
  lemma RenewalTakesASeat(s: State, id: nat, now: int)
    requires id < |s.orders| && s.orders[id].status == Created && s.orders[id].isEarly
    requires s.orders[id].tenant in SeatHolders(s.orders)
    ensures CountEarlySeats(PayOrder(s, id, now).orders) == CountEarlySeats(s.orders) + 1
    ensures SeatHolders(PayOrder(s, id, now).orders) == SeatHolders(s.orders)
  {
    hide PaidUntil, Dates.AddMonths;
    var orders' := PayOrder(s, id, now).orders;
    CountUpdate(s.orders, id, orders'[id], (o: Order) => IsSeat(o));
    forall t | t in SeatHolders(s.orders) ensures t in SeatHolders(orders') {
      var i :| 0 <= i < |s.orders| && IsSeat(s.orders[i]) && s.orders[i].tenant == t;
      assert orders'[i] == s.orders[i];
    }
  }

  // ---- Campaigns and win-back codes

  /** Running campaigns are tried best first. */
  lemma {:induction false} CampaignsBestFirst(promos: seq<Promo>, n: nat, use: PromoUse)
    requires n <= |promos|
    ensures BestFirst(UsableCampaigns(promos, n, use))
  {
    hide IsUsable;
    if n > 0 {
      CampaignsBestFirst(promos, n - 1, use);
      if promos[n - 1].isCampaign && IsUsable(promos[n - 1], use) {
        InsertKeepsBestFirst(UsableCampaigns(promos, n - 1, use), ToDiscount(promos[n - 1]));
      }
    }
  }

  ghost predicate BestFirst(ds: seq<Discount>) {
    forall i, j :: 0 <= i < j < |ds| ==> ds[i].percentOff >= ds[j].percentOff
  }

  lemma {:induction false} InsertKeepsBestFirst(ds: seq<Discount>, d: Discount)
    requires BestFirst(ds)
    ensures BestFirst(InsertByPercent(ds, d))
  {
    if ds != [] && ds[0].percentOff >= d.percentOff {
      InsertKeepsBestFirst(ds[1..], d);
      var rest := InsertByPercent(ds[1..], d);
      forall j | 0 <= j < |rest| ensures ds[0].percentOff >= rest[j].percentOff {
        assert rest[j] in rest;
      }
    }
  }

  /** Orders with the code that were ever paid. */
  function IsPaidWith(code: string): Order -> bool {
    (o: Order) => o.promoCode == Some(code) && (o.status.Paid? || o.status.RefundRequested? || o.status.Refunded?)
  }

  /**
   * Whatever happens after it was issued, a win-back code takes off 40% for
   * two months, works for its tenant only, within seven days, until an order
   * with it was paid once.
   */
  lemma WinbackCodeLives(
    s: State, tenant: nat, code: string, now: int, trace: seq<Event>, freeLimit: nat, input: Checkout, at: int)
    requires Valid(s) && IssueWinbackCode(s, tenant, code, now).1 == Ok(Some(code))
    ensures var later := Run(IssueWinbackCode(s, tenant, code, now).0, trace, freeLimit);
      exists i :: 0 <= i < |later.promos| && later.promos[i].code == code
        && !later.promos[i].isCampaign && later.promos[i].percentOff == 40 && later.promos[i].months == Some(2)
        && (Allows(later.promos[i], input, at) <==>
              input.tenant == tenant && at < now + 7 * 86_400_000 && Count(later.orders, IsPaidWith(code)) == 0)
  {
    hide Valid, Follows, Run, Count;
    var issued := IssueWinbackCode(s, tenant, code, now).0;
    KeepsOnWinback(s, tenant, code, now);
    RunKeeps(issued, trace, freeLimit);
    RowStays(issued, Run(issued, trace, freeLimit), |s.promos|);
  }

  lemma RowStays(s: State, later: State, k: nat)
    requires Follows(s, later) && Valid(later) && k < |s.promos|
    ensures k < |later.promos|
    ensures later.promos[k] == s.promos[k].(used := Count(later.orders, IsPaidWith(s.promos[k].code)))
  {
    hide PeriodsOk, TermsOk, OrdersOk, ReferralsOk, RewardsOk, EarningsOk, CodesOk, Count;
    CountsAlike(later.orders, IsPaidWith(s.promos[k].code), IsUseOf(s.promos[k].code));
  }

  /** Whatever happens after it joined, a partner's code takes 20% off three months for everyone, at any time. */
  lemma PartnerCodeLives(
    s: State, code: string, partner: Partner, trace: seq<Event>, freeLimit: nat, input: Checkout, at: int)
    requires Valid(s) && AddPartner(s, code, partner).Ok?
    ensures var later := Run(AddPartner(s, code, partner).value, trace, freeLimit);
      && |s.partners| < |later.partners| && later.partners[|s.partners|] == partner
      && exists i :: 0 <= i < |later.promos| && later.promos[i].code == code
           && !later.promos[i].isCampaign && later.promos[i].percentOff == 20 && later.promos[i].months == Some(3)
           && later.promos[i].partner == Some(|s.partners|) && Allows(later.promos[i], input, at)
  {
    hide Valid, Follows, Run, Count;
    var joined := AddPartner(s, code, partner).value;
    KeepsOnAddPartner(s, code, partner);
    RunKeeps(joined, trace, freeLimit);
    RowStays(joined, Run(joined, trace, freeLimit), |s.promos|);
    PartnersStay(joined, Run(joined, trace, freeLimit));
  }

  lemma PartnersStay(s: State, later: State)
    requires Follows(s, later)
    ensures s.partners <= later.partners
  {
  }

  // ---- Partners

  predicate IsStillPaid(o: Order, tenant: nat) {
    o.tenant == tenant && o.status.Paid? && o.provider != Referral
  }

  /** `i` is the tenant's earliest payment that is still paid. */
  ghost predicate IsFirstPayment(orders: seq<Order>, tenant: nat, i: nat) {
    && i < |orders| && IsStillPaid(orders[i], tenant)
    && forall j :: 0 <= j < |orders| && IsStillPaid(orders[j], tenant) ==>
        orders[i].status.period.paidAt <= orders[j].status.period.paidAt
  }

  /** Fewer than the partner's months have passed since the tenant's first payment. */
  ghost predicate InWindow(orders: seq<Order>, tenant: nat, months: int, now: int) {
    exists i: nat :: IsFirstPayment(orders, tenant, i) && now < Dates.AddMonths(orders[i].status.period.paidAt, months)
  }

  /**
   * A paid money order earns its share exactly when the code its customer
   * remembers now is a partner's and the customer is inside that partner's
   * months; nothing else changes.
   */
  lemma EarnsInsideWindowExactly(s: State, id: nat, now: int)
    requires id < |s.orders| && id !in s.earnings
    requires s.orders[id].status.Paid? && s.orders[id].provider != Referral && s.orders[id].amountMinor != 0
    ensures var o, s' := s.orders[id], RecordEarning(s, id, now);
      var link := PartnerLink(s, o.tenant);
      && (id in s'.earnings <==> link.Some? && InWindow(s.orders, o.tenant, s.partners[link.value].months, now))
      && (id in s'.earnings ==> s'.earnings[id].partner == link.value && s'.earnings[id].createdAt == now)
      && s'.earnings - {id} == s.earnings
      && s' == s.(earnings := s'.earnings)
  {
    hide Dates.AddMonths, PartnerLink, FirstPaidAt, ShareOf;
    var o := s.orders[id];
    FirstPaymentAt(s.orders, o.tenant, id, now);
  }

  lemma FirstPaymentAt(orders: seq<Order>, tenant: nat, id: nat, now: int)
    requires id < |orders| && PaidBy(orders[id], tenant) && orders[id].provider != Referral
    ensures exists i: nat :: IsFirstPayment(orders, tenant, i)
    ensures forall i: nat :: IsFirstPayment(orders, tenant, i) ==>
      orders[i].status.period.paidAt == FirstPaidAt(orders, tenant, now)
  {
    var first := FirstPaidAt(orders, tenant, now);
    hide FirstPaidAt;
    var i :| 0 <= i < |orders| && PaidBy(orders[i], tenant) && orders[i].provider != Referral
      && first == orders[i].status.period.paidAt;
    assert IsFirstPayment(orders, tenant, i);
  }

  /** `i` is the tenant's earliest payment ever, refunded or not. */
  ghost predicate IsFirstEver(orders: seq<Order>, tenant: nat, i: nat) {
    && i < |orders| && IsMoneyPayment(orders[i], tenant)
    && forall j :: 0 <= j < |orders| && IsMoneyPayment(orders[j], tenant) ==>
        orders[i].status.period.paidAt <= orders[j].status.period.paidAt
  }

  predicate IsMoneyPayment(o: Order, tenant: nat) {
    o.tenant == tenant && o.provider != Referral && o.status.EverPaid()
  }

  /**
   * The documented window is counted from the customer's first payment `ever`,
   * the code's from the first one still paid. They decide alike exactly when
   * `now` is past both ends or before both; the code's end is the earlier one
   * only if the two payments are clamped onto one day from one month.
   */
  lemma PartnerWindowExactly(s: State, id: nat, now: int, ever: nat, still: nat)
    requires id < |s.orders| && id !in s.earnings
    requires s.orders[id].status.Paid? && s.orders[id].provider != Referral && s.orders[id].amountMinor != 0
    requires PartnerLink(s, s.orders[id].tenant).Some?
    requires IsFirstEver(s.orders, s.orders[id].tenant, ever) && IsFirstPayment(s.orders, s.orders[id].tenant, still)
    ensures var months := s.partners[PartnerLink(s, s.orders[id].tenant).value].months;
      var first, counted := s.orders[ever].status.period.paidAt, s.orders[still].status.period.paidAt;
      var documented, actual := Dates.AddMonths(first, months), Dates.AddMonths(counted, months);
      && first <= counted
      && ((id in RecordEarning(s, id, now).earnings <==> now < documented) <==>
            !(documented <= now < actual) && !(actual <= now < documented))
      && (actual < documented ==>
            Calendar.MonthOf(first / Calendar.MS_PER_DAY) == Calendar.MonthOf(counted / Calendar.MS_PER_DAY))
  {
    hide Dates.AddMonths, PartnerLink, RecordEarning, Calendar.MonthOf;
    var tenant := s.orders[id].tenant;
    EarnsInsideWindowExactly(s, id, now);
    FirstPaymentAt(s.orders, tenant, id, now);
    var months := s.partners[PartnerLink(s, tenant).value].months;
    var first, counted := s.orders[ever].status.period.paidAt, s.orders[still].status.period.paidAt;
    assert IsMoneyPayment(s.orders[still], tenant);
    if first < counted {
      Dates.AddMonthsSwaps(first, counted, months);
    }
  }

  /** So they agree for every customer whose first payment was neither refunded nor asked back. */
  lemma PartnerWindowAsDocumented(s: State, id: nat, now: int, ever: nat)
    requires id < |s.orders| && id !in s.earnings
    requires s.orders[id].status.Paid? && s.orders[id].provider != Referral && s.orders[id].amountMinor != 0
    requires PartnerLink(s, s.orders[id].tenant).Some?
    requires IsFirstEver(s.orders, s.orders[id].tenant, ever) && s.orders[ever].status.Paid?
    ensures id in RecordEarning(s, id, now).earnings <==>
      now < Dates.AddMonths(s.orders[ever].status.period.paidAt,
                            s.partners[PartnerLink(s, s.orders[id].tenant).value].months)
  {
    hide Dates.AddMonths, PartnerLink, RecordEarning;
    assert IsFirstPayment(s.orders, s.orders[id].tenant, ever);
    PartnerWindowExactly(s, id, now, ever, ever);
  }
}
