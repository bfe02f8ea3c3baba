/** What one payment does to every table, in the tables' fields. */
module BillingPayments {
  import opened Wrappers
  import opened Pricing
  import opened Sequences
  import opened Billing
  import opened BillingInvariants
  import opened BillingRuns
  import opened BillingTheorems
  import opened BillingPlans
  import opened BillingCheckout
  import opened BillingCodes
  import opened BillingTerms
  import Dates
  import Decimal

  // ---- The five answers

  /**
   * A key is recorded and decides once. A notification under a new key is
   * applied exactly when it says that a created order was paid with its very
   * amount; it fails a created order exactly when it says the order was not
   * paid; otherwise it changes nothing but the log.
   */
  lemma NotificationDecides(s: State, n: Notification, now: int)
    ensures var (s', outcome), isNew := ApplyNotification(s, n, now), (n.provider, n.eventKey) !in s.events;
      var isKnown := n.orderId < |s.orders|;
      var isOpen := isKnown && s.orders[n.orderId].status == Created;
      && (outcome == Applied <==> isNew && isOpen && n.isPaid && n.paidAmountMinor == s.orders[n.orderId].amountMinor)
      && (outcome == AmountMismatch <==>
            isNew && isOpen && n.isPaid && n.paidAmountMinor != s.orders[n.orderId].amountMinor)
      && (outcome == NotPaid <==> isNew && isOpen && !n.isPaid)
      && (outcome == UnknownOrder <==> isNew && !isKnown)
      && (outcome == Duplicate <==> !isNew || (isKnown && !isOpen))
      && (outcome == NotPaid ==>
            s' == s.(events := s.events + {(n.provider, n.eventKey)},
                     orders := s.orders[n.orderId := s.orders[n.orderId].(status := Failed)]))
      && (outcome != NotPaid && outcome != Applied ==> s' == s.(events := s.events + {(n.provider, n.eventKey)}))
  {
    hide Settle;
    if (n.provider, n.eventKey) in s.events {
      assert s.events + {(n.provider, n.eventKey)} == s.events;
    }
  }

  // ---- An applied payment

  /** Where paid time bought now begins: when the tenant's paid time ends, or now if none is left. */
  ghost predicate ContinuesPaidTime(orders: seq<Order>, tenant: nat, start: int, now: int) {
    && start >= now
    && (forall i :: 0 <= i < |orders| && orders[i].tenant == tenant && orders[i].status.Paid? ==>
          orders[i].status.period.end <= start)
    && (start == now || exists i :: 0 <= i < |orders| && orders[i].tenant == tenant && orders[i].status.Paid?
                          && orders[i].status.period.end == start)
  }

  /** The tenant is owed a month for inviting the friend. */
  predicate IsOwedBy(row: ReferralRow, friend: nat) {
    row.referred == friend && !row.isRewarded
  }

  /** The order's row is paid, from where the tenant's paid time ended; every other row stays. */
  ghost predicate OrderIsPaid(orders: seq<Order>, orders': seq<Order>, id: nat, now: int)
    requires id < |orders| <= |orders'|
  {
    && (exists start :: ContinuesPaidTime(orders, orders[id].tenant, start, now)
          && orders'[id]
             == orders[id].(status := Paid(Period(now, start, Dates.AddMonths(start, orders[id].months)))))
    && forall i :: 0 <= i < |orders| && i != id ==> orders'[i] == orders[i]
  }

  lemma PaidRow(orders: seq<Order>, id: nat, now: int)
    requires id < |orders|
    ensures |MarkPaid(orders, id, now)| == |orders| && OrderIsPaid(orders, MarkPaid(orders, id, now), id, now)
  {
    hide LatestPaid, Dates.AddMonths;
    var tenant := orders[id].tenant;
    var latest := LatestPaid(orders, tenant, now);
    if latest.Some? {
      assert PaidBy(orders[latest.value], tenant);
    }
    assert forall i :: 0 <= i < |orders| && orders[i].tenant == tenant && orders[i].status.Paid? ==>
      PaidBy(orders[i], tenant);
    assert ContinuesPaidTime(orders, tenant, PaidUntil(orders, tenant, now), now);
  }

  /** One more use of the order's code, and of no other. */
  ghost predicate CodeIsCounted(promos: seq<Promo>, promos': seq<Promo>, code: Option<string>) {
    && |promos'| == |promos|
    && forall i :: 0 <= i < |promos| ==>
        promos'[i] == if Some(promos[i].code) == code then promos[i].(used := promos[i].used + 1) else promos[i]
  }

  lemma UseIsCounted(promos: seq<Promo>, code: Option<string>)
    requires forall i, j :: 0 <= i < j < |promos| ==> promos[i].code != promos[j].code
    ensures CodeIsCounted(promos, CountPromoUse(promos, code), code)
  {
    hide FindPromo;
    forall i | 0 <= i < |promos| && Some(promos[i].code) == code
      ensures FindPromo(promos, promos[i].code) == Some(i)
    {
      FindPromoIs(promos, i);
    }
  }

  /** The friend's referral is rewarded, and no other. */
  ghost predicate ReferralIsRewarded(rows: seq<ReferralRow>, rows': seq<ReferralRow>, friend: nat) {
    && |rows'| == |rows|
    && forall i :: 0 <= i < |rows| ==>
        rows'[i] == if rows[i].referred == friend then rows[i].(isRewarded := true) else rows[i]
  }

  /** The payer gets the plan it paid for; only a tenant owed for inviting it may get another plan too. */
  ghost predicate PlansAfterPayment(s: State, tenants': seq<Tenant>, o: Order) {
    && |tenants'| == |s.tenants| && o.tenant < |s.tenants|
    && tenants'[o.tenant] == s.tenants[o.tenant].(plan := o.plan)
    && forall t :: 0 <= t < |s.tenants| && t != o.tenant && tenants'[t] != s.tenants[t] ==>
        && s.tenants[t].plan == Free && tenants'[t] == s.tenants[t].(plan := tenants'[t].plan)
        && exists r :: 0 <= r < |s.referrals| && IsOwedBy(s.referrals[r], o.tenant) && s.referrals[r].referrer == t
  }

  function IsFreeMonthOf(tenant: nat): Order -> bool {
    (o: Order) => o.tenant == tenant && o.provider == Referral
  }

  /** Who is owed a month for this friend and has been given fewer than twelve. */
  ghost predicate GetsMonth(s: State, referrer: nat, friend: nat) {
    && (exists r :: 0 <= r < |s.referrals| && IsOwedBy(s.referrals[r], friend) && s.referrals[r].referrer == referrer)
    && Count(s.orders, IsFreeMonthOf(referrer)) < 12
  }

  /** The row of a month that costs nothing, given now. */
  predicate IsFreeMonth(o: Order, referrer: nat, now: int) {
    && o.status.Paid?
    && o == Order(referrer, o.plan, 1, 0, RUB, false, None, Referral,
                  Paid(Period(now, o.status.period.start, Dates.AddMonths(o.status.period.start, 1))))
  }

  lemma RewardAddsOne(s: State, friend: nat, now: int)
    requires Valid(s) && friend < |s.tenants|
    ensures var s' := RewardReferrer(s, friend, now);
      && s' == s.(orders := s'.orders, tenants := s'.tenants, referrals := s'.referrals)
      && ReferralIsRewarded(s.referrals, s'.referrals, friend)
      && (s'.orders == s.orders
          || exists referrer :: GetsMonth(s, referrer, friend) && |s'.orders| == |s.orders| + 1
               && s'.orders[..|s.orders|] == s.orders && IsFreeMonth(s'.orders[|s.orders|], referrer, now))
      && ((exists referrer :: GetsMonth(s, referrer, friend)) ==> |s'.orders| == |s.orders| + 1)
      && |s'.tenants| == |s.tenants| && s'.tenants[friend] == s.tenants[friend]
      && forall t :: 0 <= t < |s.tenants| && s'.tenants[t] != s.tenants[t] ==>
          && s.tenants[t].plan == Free && s'.tenants[t] == s.tenants[t].(plan := s'.tenants[t].plan)
          && exists r :: 0 <= r < |s.referrals| && IsOwedBy(s.referrals[r], friend) && s.referrals[r].referrer == t
  {
    hide PeriodsOk, TermsOk, OrdersOk, PromosOk, RewardsOk, EarningsOk, CodesOk, LatestPaid, Dates.AddMonths, Count;
    var row := PendingReferral(s.referrals, friend);
    if row.Some? {
      var referrer := s.referrals[row.value].referrer;
      assert IsOwedBy(s.referrals[row.value], friend);
      CountsAlike(s.orders, IsFreeMonthOf(referrer), IsRewardFor(referrer));
      if CountRewards(s.orders, referrer) < MAX_REFERRAL_MONTHS {
        assert GetsMonth(s, referrer, friend);
        MonthIsFree(s.orders, s.tenants[referrer], referrer, now);
      }
    } else {
      assert forall r :: 0 <= r < |s.referrals| ==> !IsOwedBy(s.referrals[r], friend);
    }
  }

  lemma MonthIsFree(orders: seq<Order>, tenant: Tenant, referrer: nat, now: int)
    ensures IsFreeMonth(RewardOrder(orders, tenant, referrer, now), referrer, now)
  {
    hide LatestPaid, Dates.AddMonths;
  }

  /** Paying an order gives nobody a free month. */
  lemma PayingKeepsMonths(s: State, events: set<(Provider, string)>, id: nat, now: int, friend: nat)
    requires id < |s.orders|
    ensures var paid := PayOrder(s.(events := events), id, now);
      forall referrer :: GetsMonth(paid, referrer, friend) <==> GetsMonth(s, referrer, friend)
  {
    hide PaidUntil, Dates.AddMonths, CountPromoUse, SetPlan, Count;
    var paid := PayOrder(s.(events := events), id, now);
    forall referrer: nat
      ensures Count(paid.orders, IsFreeMonthOf(referrer)) == Count(s.orders, IsFreeMonthOf(referrer))
    {
      CountUpdate(s.orders, id, paid.orders[id], IsFreeMonthOf(referrer));
    }
  }

  lemma OrderStaysPaid(a: seq<Order>, b: seq<Order>, c: seq<Order>, id: nat, now: int)
    requires id < |a| == |b| && b <= c && OrderIsPaid(a, b, id, now)
    ensures OrderIsPaid(a, c, id, now)
  {
    hide ContinuesPaidTime, Dates.AddMonths;
  }

  lemma SettleIs(s: State, id: nat, now: int)
    requires id < |s.orders|
    ensures var rewarded, s' := RewardReferrer(PayOrder(s, id, now), s.orders[id].tenant, now), Settle(s, id, now);
      && id < |rewarded.orders| && s' == RecordEarning(rewarded, id, now)
      && s' == rewarded.(earnings := s'.earnings) && s'.earnings - {id} == rewarded.earnings - {id}
  {
    hide RewardReferrer, FirstPaidAt, PartnerLink, Dates.AddMonths, CountPromoUse, SetPlan, PaidUntil;
    RewardKeepsOrders(PayOrder(s, id, now), s.orders[id].tenant, now);
  }

  lemma NothingEarnedYet(s: State, id: nat)
    requires Valid(s) && id < |s.orders| && s.orders[id].status == Created
    ensures s.earnings - {id} == s.earnings
  {
  }

  /**
   * An applied payment pays its order, from where the tenant's paid time ended;
   * gives the payer the plan; counts one use of the order's code; rewards the
   * referral of the payer, with one free month exactly when its inviter has
   * been given fewer than twelve; and records at most this order's earning.
   * Nothing else changes.
   */
  lemma PaymentEffects(s: State, n: Notification, now: int)
    requires Valid(s) && ApplyNotification(s, n, now).1 == Applied
    ensures n.orderId < |s.orders|
    ensures var o, s' := s.orders[n.orderId], ApplyNotification(s, n, now).0;
      && s'.events == s.events + {(n.provider, n.eventKey)}
      && s'.targets == s.targets && s'.partners == s.partners
      && |s.orders| <= |s'.orders| && OrderIsPaid(s.orders, s'.orders, n.orderId, now)
      && PlansAfterPayment(s, s'.tenants, o)
      && CodeIsCounted(s.promos, s'.promos, o.promoCode)
      && ReferralIsRewarded(s.referrals, s'.referrals, o.tenant)
      && s'.earnings - {n.orderId} == s.earnings
      && (|s'.orders| != |s.orders| <==> exists referrer :: GetsMonth(s, referrer, o.tenant))
      && (|s'.orders| != |s.orders| ==>
            && |s'.orders| == |s.orders| + 1
            && exists referrer :: GetsMonth(s, referrer, o.tenant)
                 && IsFreeMonth(s'.orders[|s.orders|], referrer, now))
  {
    hide Valid, Settle, RewardReferrer, RecordEarning, MarkPaid, CountPromoUse, OrderIsPaid, CodeIsCounted, GetsMonth,
      IsFreeMonth, ReferralIsRewarded, IsOwedBy;
    var id, s1 := n.orderId, s.(events := s.events + {(n.provider, n.eventKey)});
    assert Valid(s1) by { EventsKeep(s, s1.events); }
    var o, paid := s.orders[id], PayOrder(s1, id, now);
    assert o.tenant < |s.tenants| by { OrdersAreKnown(s, id); }
    KeepsOnPayOrder(s1, id, now);
    PaidRow(s.orders, id, now);
    UniqueCodes(s);
    UseIsCounted(s.promos, o.promoCode);
    RewardAddsOne(paid, o.tenant, now);
    PayingKeepsMonths(s, s1.events, id, now, o.tenant);
    SettleIs(s1, id, now);
    RewardKeepsOrders(paid, o.tenant, now);
    OrderStaysPaid(s.orders, paid.orders, ApplyNotification(s, n, now).0.orders, id, now);
    NothingEarnedYet(s, id);
  }

  // ---- Payments taken by hand

  /**
   * A grant to a known tenant adds an order of exactly what was granted. It is
   * paid at once, as by a notification, unless the order's own key was used
   * before; then it stays unpaid and nothing else changes.
   */
  lemma GrantRecords(s: State, g: Grant, now: int)
    requires Valid(s)
    ensures var (s', r), id := GrantManualPayment(s, g, now), |s.orders|;
      var o := Order(g.tenant, g.plan, g.months, g.amountMinor, g.currency, g.isEarly, None, Manual, Created);
      && (g.tenant >= |s.tenants| ==> (s', r) == (s, Err(ConstraintViolation)))
      && (g.tenant < |s.tenants| && (Manual, "manual:" + Decimal.Print(id)) in s.events ==>
            (s', r) == (s.(orders := s.orders + [o]), Err(InternalError)))
      && (g.tenant < |s.tenants| && (Manual, "manual:" + Decimal.Print(id)) !in s.events ==>
            && r == Ok(id) && id < |s'.orders| && OrderIsPaid(s.orders + [o], s'.orders, id, now)
            && PlansAfterPayment(s, s'.tenants, o) && s'.promos == s.promos
            && s'.events == s.events + {(Manual, "manual:" + Decimal.Print(id))})
  {
    hide Valid, Settle, OrderIsPaid, Decimal.Print;
    if g.tenant < |s.tenants| {
      var inserted := s.(orders := s.orders + [GrantOrder(g)]);
      KeepsOnNewOrder(s, GrantOrder(g));
      if (Manual, "manual:" + Decimal.Print(|s.orders|)) !in s.events {
        PaymentEffects(inserted, GrantNotification(g, |s.orders|), now);
        SamePromos(s.promos, GrantManualPayment(s, g, now).0.promos);
      }
    }
  }

  lemma SamePromos(promos: seq<Promo>, promos': seq<Promo>)
    requires CodeIsCounted(promos, promos', None)
    ensures promos' == promos
  {
  }

  // ---- What the payment earns a partner

  /** The tenant remembers a code of this partner. */
  ghost predicate IsCustomerOf(s: State, tenant: nat, partner: nat) {
    && partner < |s.partners| && tenant < |s.tenants|
    && exists i :: 0 <= i < |s.promos| && s.tenants[tenant].acquiredCode == Some(s.promos[i].code)
         && s.promos[i].partner == Some(partner)
  }

  lemma PartnerLinkExactly(s: State, tenant: nat, partner: nat)
    requires Valid(s)
    ensures PartnerLink(s, tenant) == Some(partner) <==> IsCustomerOf(s, tenant, partner)
  {
    hide Valid, FindPromo;
    UniqueCodes(s);
    forall i | 0 <= i < |s.promos|
      ensures FindPromo(s.promos, s.promos[i].code) == Some(i)
    {
      FindPromoIs(s.promos, i);
    }
  }

  /** The whole percentage of an amount, a half up. */
  predicate IsShare(share: int, amountMinor: int, percent: int) {
    amountMinor * percent - 50 < 100 * share <= amountMinor * percent + 50
  }

  /**
   * An applied payment earns exactly when it is money, its tenant remembers a
   * partner's code, and fewer than that partner's months have passed since the
   * tenant's first payment that is still paid, this one included; it earns
   * that partner's share.
   */
  lemma PaymentEarnsExactly(s: State, n: Notification, now: int)
    requires Valid(s) && ApplyNotification(s, n, now).1 == Applied
    ensures n.orderId < |s.orders|
    ensures var id, o, s' := n.orderId, s.orders[n.orderId], ApplyNotification(s, n, now).0;
      && (id in s'.earnings <==>
            o.amountMinor != 0 && exists partner: nat :: IsCustomerOf(s, o.tenant, partner)
                                    && InWindow(s'.orders, o.tenant, s.partners[partner].months, now))
      && (id in s'.earnings ==>
            var e := s'.earnings[id];
            IsCustomerOf(s, o.tenant, e.partner) && e.tenant == o.tenant && e.createdAt == now
            && IsShare(e.amountMinor, o.amountMinor, s.partners[e.partner].percent))
  {
    hide Valid, Settle, RewardReferrer, RecordEarning, MarkPaid, CountPromoUse, OrderIsPaid, CodeIsCounted, InWindow,
      IsCustomerOf, PartnerLink, IsShare;
    var id, s1 := n.orderId, s.(events := s.events + {(n.provider, n.eventKey)});
    assert Valid(s1) by { EventsKeep(s, s1.events); }
    var o, paid := s.orders[id], PayOrder(s1, id, now);
    var rewarded := RewardReferrer(paid, o.tenant, now);
    KeepsOnPayOrder(s1, id, now);
    KeepsOnReward(paid, o.tenant, now);
    NothingEarnedYet(s, id);
    MoneyOrder(s, id);
    SameCustomers(s, s1, id, now);
    PaidRowAfterReward(s1, id, now);
    SettleIs(s1, id, now);
    EarnedBy(rewarded, id, now);
  }

  lemma MoneyOrder(s: State, id: nat)
    requires Valid(s) && id < |s.orders| && s.orders[id].status == Created
    ensures s.orders[id].provider != Referral && id !in s.earnings && s.orders[id].tenant < |s.tenants|
  {
  }

  lemma SameCustomers(s: State, s1: State, id: nat, now: int)
    requires Valid(s) && Valid(s1) && id < |s.orders| && s.orders[id].status == Created
    requires s1 == s.(events := s1.events)
    ensures var rewarded := RewardReferrer(PayOrder(s1, id, now), s.orders[id].tenant, now);
      && rewarded.earnings == s.earnings && rewarded.partners == s.partners
      && forall partner: nat :: IsCustomerOf(rewarded, s.orders[id].tenant, partner)
                       <==> IsCustomerOf(s, s.orders[id].tenant, partner)
  {
    hide Valid, RewardReferrer, MarkPaid, CountPromoUse, ReferralIsRewarded, GetsMonth, IsFreeMonth, IsOwedBy;
    var tenant, paid := s.orders[id].tenant, PayOrder(s1, id, now);
    KeepsOnPayOrder(s1, id, now);
    MoneyOrder(s, id);
    UniqueCodes(s);
    UseIsCounted(s.promos, s.orders[id].promoCode);
    RewardAddsOne(paid, tenant, now);
  }

  lemma EarnedBy(s: State, id: nat, now: int)
    requires Valid(s) && id < |s.orders| && id !in s.earnings
    requires s.orders[id].status.Paid? && s.orders[id].provider != Referral
    ensures var o, s' := s.orders[id], RecordEarning(s, id, now);
      && (id in s'.earnings <==>
            o.amountMinor != 0 && exists partner: nat :: IsCustomerOf(s, o.tenant, partner)
                                    && InWindow(s.orders, o.tenant, s.partners[partner].months, now))
      && (id in s'.earnings ==>
            var e := s'.earnings[id];
            IsCustomerOf(s, o.tenant, e.partner) && e.tenant == o.tenant && e.createdAt == now
            && IsShare(e.amountMinor, o.amountMinor, s.partners[e.partner].percent))
  {
    hide Valid, Dates.AddMonths, PartnerLink, FirstPaidAt, InWindow, IsCustomerOf, ShareOf;
    var o := s.orders[id];
    if o.amountMinor != 0 {
      EarnsInsideWindowExactly(s, id, now);
      forall partner: nat
        ensures PartnerLink(s, o.tenant) == Some(partner) <==> IsCustomerOf(s, o.tenant, partner)
      {
        PartnerLinkExactly(s, o.tenant, partner);
      }
      var link := PartnerLink(s, o.tenant);
      if link.Some? {
        RoundedShare(o.amountMinor, s.partners[link.value].percent);
      }
    }
  }
}
