/** What every billing operation keeps, and how each may change the tables. */
module BillingInvariants {
  import opened Wrappers
  import opened Pricing
  import opened Sequences
  import opened Billing
  import Dates

  // ---- The invariant

  /** Paid time is never empty and a tenant's paid periods never overlap. */
  ghost predicate PeriodsOk(orders: seq<Order>) {
    && (forall i :: 0 <= i < |orders| && orders[i].status.Paid? ==>
          orders[i].status.period.start < orders[i].status.period.end)
    && (forall i, j :: 0 <= i < |orders| && 0 <= j < |orders| && i != j ==> Apart(orders[i], orders[j]))
  }

  /** Time that is paid for, or asked back, is the whole months the order is for. */
  ghost predicate TermsOk(orders: seq<Order>) {
    forall i :: 0 <= i < |orders| && (orders[i].status.Paid? || orders[i].status.RefundRequested?) ==>
      orders[i].status.period.end == Dates.AddMonths(orders[i].status.period.start, orders[i].months)
  }

  predicate Apart(a: Order, b: Order) {
    a.tenant == b.tenant && a.status.Paid? && b.status.Paid? ==>
      a.status.period.end <= b.status.period.start || b.status.period.end <= a.status.period.start
  }

  ghost predicate OrdersOk(orders: seq<Order>, tenants: nat, promos: seq<Promo>) {
    forall i :: 0 <= i < |orders| ==>
      && orders[i].tenant < tenants
      && (orders[i].promoCode.Some? ==> FindPromo(promos, orders[i].promoCode.value).Some?)
      && (orders[i].provider == Yookassa ==> orders[i].amountMinor > 0)
      && (orders[i].provider == Referral ==> orders[i].status.EverPaid())
  }

  /** Codes are unique and each `used` is the number of its orders ever paid. */
  ghost predicate PromosOk(promos: seq<Promo>, orders: seq<Order>) {
    && (forall i, j :: 0 <= i < j < |promos| ==> promos[i].code != promos[j].code)
    && (forall i :: 0 <= i < |promos| ==> promos[i].used == CountUses(orders, promos[i].code))
  }

  /** One row per referred tenant, never its own referrer, and it has a recorded source. */
  ghost predicate ReferralsOk(referrals: seq<ReferralRow>, tenants: seq<Tenant>) {
    && (forall i :: 0 <= i < |referrals| ==>
          && referrals[i].referrer < |tenants| && referrals[i].referred < |tenants|
          && referrals[i].referrer != referrals[i].referred
          && tenants[referrals[i].referred].acquiredVia != Organic)
    && (forall i, j :: 0 <= i < j < |referrals| ==> referrals[i].referred != referrals[j].referred)
  }

  /** Free months are bounded by twelve and by the friends who paid. */
  ghost predicate RewardsOk(orders: seq<Order>, referrals: seq<ReferralRow>) {
    forall t: nat :: CountRewards(orders, t) <= MAX_REFERRAL_MONTHS
      && CountRewards(orders, t) <= CountRewarded(referrals, t)
  }

  /** An earning is the partner's rounded share of one money order, earned when that order was paid. */
  ghost predicate EarningsOk(earnings: map<nat, Earning>, orders: seq<Order>, partners: seq<Partner>) {
    forall id :: id in earnings ==>
      && id < |orders|
      && orders[id].status.EverPaid() && orders[id].amountMinor != 0
      && earnings[id].tenant == orders[id].tenant
      && earnings[id].createdAt == orders[id].status.period.paidAt
      && earnings[id].partner < |partners|
      && earnings[id].amountMinor == ShareOf(orders[id].amountMinor, partners[earnings[id].partner].percent)
  }

  ghost predicate CodesOk(tenants: seq<Tenant>) {
    forall i, j :: 0 <= i < j < |tenants| && tenants[i].referralCode.Some? ==>
      tenants[i].referralCode != tenants[j].referralCode
  }

  ghost predicate Valid(s: State) {
    && PeriodsOk(s.orders)
    && TermsOk(s.orders)
    && OrdersOk(s.orders, |s.tenants|, s.promos)
    && PromosOk(s.promos, s.orders)
    && ReferralsOk(s.referrals, s.tenants)
    && RewardsOk(s.orders, s.referrals)
    && EarningsOk(s.earnings, s.orders, s.partners)
    && CodesOk(s.tenants)
  }

  // ---- How rows may change

  /** created -> paid -> refund_requested -> refunded, or created -> failed, in any number of steps. */
  predicate StatusFollows(a: Status, b: Status) {
    || a == b
    || a.Created?
    || (a.Paid? && b.RefundRequested? && b.period == a.period)
    || ((a.Paid? || a.RefundRequested?) && b.Refunded? && b.period == a.period.(end := b.period.end))
  }

  predicate OrderFollows(a: Order, b: Order) {
    b == a.(status := b.status) && StatusFollows(a.status, b.status)
  }

  predicate TenantFollows(a: Tenant, b: Tenant) {
    && a.createdAt == b.createdAt
    && (a.acquiredVia != Organic ==> b.acquiredVia != Organic)
    && (a.referralCode.Some? ==> b.referralCode == a.referralCode)
    && (a.winbackSentAt.Some? ==> b.winbackSentAt == a.winbackSentAt)
  }

  ghost predicate Follows(s: State, s': State) {
    && |s.orders| <= |s'.orders|
    && (forall i :: 0 <= i < |s.orders| ==> OrderFollows(s.orders[i], s'.orders[i]))
    && |s.tenants| <= |s'.tenants|
    && (forall i :: 0 <= i < |s.tenants| ==> TenantFollows(s.tenants[i], s'.tenants[i]))
    && |s.referrals| <= |s'.referrals|
    && (forall i :: 0 <= i < |s.referrals| ==>
          && s.referrals[i].(isRewarded := true) == s'.referrals[i].(isRewarded := true)
          && (s.referrals[i].isRewarded ==> s'.referrals[i].isRewarded))
    && |s.promos| <= |s'.promos|
    && (forall i :: 0 <= i < |s.promos| ==>
          s'.promos[i] == s.promos[i].(used := s'.promos[i].used) && s.promos[i].used <= s'.promos[i].used)
    && s.partners <= s'.partners
    && s.events <= s'.events
    && (forall id :: id in s.earnings ==> id in s'.earnings && s'.earnings[id] == s.earnings[id])
  }

  lemma FollowsTransitive(a: State, b: State, c: State)
    requires Follows(a, b) && Follows(b, c)
    ensures Follows(a, c)
  {
    forall i | 0 <= i < |a.orders|
      ensures OrderFollows(a.orders[i], c.orders[i])
    {
      assert OrderFollows(a.orders[i], b.orders[i]) && OrderFollows(b.orders[i], c.orders[i]);
    }
    forall i | 0 <= i < |a.tenants|
      ensures TenantFollows(a.tenants[i], c.tenants[i])
    {
      assert TenantFollows(a.tenants[i], b.tenants[i]) && TenantFollows(b.tenants[i], c.tenants[i]);
    }
  }

  // ---- Changing one order

  /** New paid time starts no earlier than any paid time the tenant has. */
  lemma PaidUntilAfterAll(orders: seq<Order>, tenant: nat, now: int)
    ensures PaidUntil(orders, tenant, now) >= now
    ensures forall i :: 0 <= i < |orders| && PaidBy(orders[i], tenant) ==>
      orders[i].status.period.end <= PaidUntil(orders, tenant, now)
  {
  }

  ghost predicate StartsAfterAll(orders: seq<Order>, o: Order) {
    && o.status.Paid? && o.status.period.start < o.status.period.end
    && forall i :: 0 <= i < |orders| && PaidBy(orders[i], o.tenant) ==>
        orders[i].status.period.end <= o.status.period.start
  }

  lemma PeriodsAfterAppend(orders: seq<Order>, o: Order)
    requires PeriodsOk(orders) && (StartsAfterAll(orders, o) || !o.status.Paid?)
    ensures PeriodsOk(orders + [o])
  {
    var orders' := orders + [o];
    forall i, j | 0 <= i < |orders'| && 0 <= j < |orders'| && i != j
      ensures Apart(orders'[i], orders'[j])
    {
      assert i < |orders| && j < |orders| ==> Apart(orders[i], orders[j]);
      assert i < |orders| && PaidBy(orders[i], o.tenant) && o.status.Paid? ==>
        orders[i].status.period.end <= o.status.period.start;
      assert j < |orders| && PaidBy(orders[j], o.tenant) && o.status.Paid? ==>
        orders[j].status.period.end <= o.status.period.start;
    }
  }

  lemma PeriodsAfterUpdate(orders: seq<Order>, id: nat, o: Order)
    requires PeriodsOk(orders) && id < |orders| && o.tenant == orders[id].tenant
    requires StartsAfterAll(orders, o) || !o.status.Paid?
    ensures PeriodsOk(orders[id := o])
  {
    var orders' := orders[id := o];
    forall i, j | 0 <= i < |orders'| && 0 <= j < |orders'| && i != j
      ensures Apart(orders'[i], orders'[j])
    {
      assert Apart(orders[i], orders[j]);
      assert i != id && PaidBy(orders[i], o.tenant) && o.status.Paid? ==>
        orders[i].status.period.end <= o.status.period.start;
      assert j != id && PaidBy(orders[j], o.tenant) && o.status.Paid? ==>
        orders[j].status.period.end <= o.status.period.start;
    }
  }

  /** Counts after one order changed its status. */
  lemma CountsAfterUpdate(orders: seq<Order>, id: nat, status: Status)
    requires id < |orders|
    ensures var orders' := orders[id := orders[id].(status := status)];
      && (forall t: nat :: CountRewards(orders', t) == CountRewards(orders, t))
      && (forall code :: CountUses(orders', code) == CountUses(orders, code)
            - (if IsUseOf(code)(orders[id]) then 1 else 0)
            + (if IsUseOf(code)(orders'[id]) then 1 else 0))
  {
    var orders' := orders[id := orders[id].(status := status)];
    forall t: nat ensures CountRewards(orders', t) == CountRewards(orders, t) {
      CountUpdate(orders, id, orders'[id], IsRewardFor(t));
    }
    forall code ensures CountUses(orders', code) == CountUses(orders, code)
      - (if IsUseOf(code)(orders[id]) then 1 else 0) + (if IsUseOf(code)(orders'[id]) then 1 else 0) {
      CountUpdate(orders, id, orders'[id], IsUseOf(code));
    }
  }

  lemma CountsAfterAppend(orders: seq<Order>, o: Order)
    ensures var orders' := orders + [o];
      && (forall t: nat :: CountRewards(orders', t) == CountRewards(orders, t) + if IsRewardFor(t)(o) then 1 else 0)
      && (forall code :: CountUses(orders', code) == CountUses(orders, code) + if IsUseOf(code)(o) then 1 else 0)
  {
    var orders' := orders + [o];
    forall t: nat
      ensures CountRewards(orders', t) == CountRewards(orders, t) + if IsRewardFor(t)(o) then 1 else 0
    {
      CountAppend(orders, o, IsRewardFor(t));
    }
    forall code
      ensures CountUses(orders', code) == CountUses(orders, code) + if IsUseOf(code)(o) then 1 else 0
    {
      CountAppend(orders, o, IsUseOf(code));
    }
  }

  /** A status change that keeps "ever paid" as it was: failing, asking for and confirming a refund. */
  lemma KeepsOnStatus(s: State, id: nat, status: Status)
    requires Valid(s) && id < |s.orders|
    requires StatusFollows(s.orders[id].status, status) && !status.Paid?
    requires s.orders[id].status.EverPaid() <==> status.EverPaid()
    ensures var s' := s.(orders := s.orders[id := s.orders[id].(status := status)]);
      Valid(s') && Follows(s, s')
  {
    PeriodsAfterUpdate(s.orders, id, s.orders[id].(status := status));
    CountsAfterUpdate(s.orders, id, status);
  }

  /** An unpaid order joins the table. */
  lemma KeepsOnNewOrder(s: State, o: Order)
    requires Valid(s) && o.status == Created && o.tenant < |s.tenants| && o.provider != Referral
    requires o.provider == Yookassa ==> o.amountMinor > 0
    requires o.promoCode.Some? ==> FindPromo(s.promos, o.promoCode.value).Some?
    ensures var s' := s.(orders := s.orders + [o]);
      Valid(s') && Follows(s, s')
  {
    PeriodsAfterAppend(s.orders, o);
    CountsAfterAppend(s.orders, o);
  }

  /** Changes to tenants and targets only, within TenantFollows. */
  lemma KeepsOnTenants(s: State, tenants: seq<Tenant>, targets: seq<Target>)
    requires Valid(s) && |s.tenants| <= |tenants|
    requires forall i :: 0 <= i < |s.tenants| ==> TenantFollows(s.tenants[i], tenants[i])
    requires CodesOk(tenants)
    ensures var s' := s.(tenants := tenants, targets := targets);
      Valid(s') && Follows(s, s')
  {
  }

  // ---- Payment

  lemma FindPromoIs(promos: seq<Promo>, i: nat)
    requires i < |promos|
    requires forall i, j :: 0 <= i < j < |promos| ==> promos[i].code != promos[j].code
    ensures FindPromo(promos, promos[i].code) == Some(i)
  {
  }

  /** Codes do not change and rows only join, so a known code stays known. */
  lemma FindPromoStays(promos: seq<Promo>, promos': seq<Promo>, code: string)
    requires FindPromo(promos, code).Some?
    requires |promos| <= |promos'| && forall i :: 0 <= i < |promos| ==> promos'[i].code == promos[i].code
    ensures FindPromo(promos', code).Some?
  {
    var i := FindPromo(promos, code).value;
    assert promos'[i].code == code;
  }

  /** The order is paid and its code counted, before any reward. */
  function PayOrder(s: State, id: nat, now: int): State
    requires id < |s.orders|
  {
    s.(orders := MarkPaid(s.orders, id, now),
       tenants := SetPlan(s.tenants, s.orders[id].tenant, s.orders[id].plan),
       promos := CountPromoUse(s.promos, s.orders[id].promoCode))
  }

  lemma PayOrderKeepsPromos(s: State, id: nat, now: int)
    requires Valid(s) && id < |s.orders| && s.orders[id].status == Created
    ensures PromosOk(PayOrder(s, id, now).promos, PayOrder(s, id, now).orders)
  {
    var s' := PayOrder(s, id, now);
    var o := s.orders[id];
    CountsAfterUpdate(s.orders, id, s'.orders[id].status);
    forall i | 0 <= i < |s'.promos|
      ensures s'.promos[i].used == CountUses(s'.orders, s'.promos[i].code)
    {
      FindPromoIs(s.promos, i);
      assert s'.promos[i].code == s.promos[i].code;
      assert s.promos[i].used == CountUses(s.orders, s.promos[i].code);
    }
  }

  lemma KeepsOnPayOrder(s: State, id: nat, now: int)
    requires Valid(s) && id < |s.orders| && s.orders[id].status == Created
    ensures Valid(PayOrder(s, id, now)) && Follows(s, PayOrder(s, id, now))
  {
    hide Dates.AddMonths, LatestPaid, PaidUntil, FindPromo, CountUses, CountRewards, ShareOf;
    var s' := PayOrder(s, id, now);
    var o := s.orders[id];
    PaidUntilAfterAll(s.orders, o.tenant, now);
    Dates.AddMonthsLater(PaidUntil(s.orders, o.tenant, now), o.months);
    PeriodsAfterUpdate(s.orders, id, s'.orders[id]);
    CountsAfterUpdate(s.orders, id, s'.orders[id].status);
    PayOrderKeepsPromos(s, id, now);
    forall i | 0 <= i < |s.orders| && s.orders[i].promoCode.Some?
      ensures FindPromo(s'.promos, s'.orders[i].promoCode.value).Some?
    {
      FindPromoStays(s.promos, s'.promos, s.orders[i].promoCode.value);
    }
  }

  lemma CountsAfterReward(referrals: seq<ReferralRow>, i: nat)
    requires i < |referrals| && !referrals[i].isRewarded
    ensures var flipped := referrals[i := referrals[i].(isRewarded := true)];
      forall t: nat ::
        CountRewarded(flipped, t) == CountRewarded(referrals, t) + if t == referrals[i].referrer then 1 else 0
  {
    var flipped := referrals[i := referrals[i].(isRewarded := true)];
    forall t: nat
      ensures CountRewarded(flipped, t) == CountRewarded(referrals, t) + if t == referrals[i].referrer then 1 else 0
    {
      CountUpdate(referrals, i, flipped[i], IsRewardedBy(t));
    }
  }

  /** A referral is marked as rewarded. */
  lemma KeepsOnFlip(s: State, i: nat)
    requires Valid(s) && i < |s.referrals| && !s.referrals[i].isRewarded
    ensures var s' := s.(referrals := s.referrals[i := s.referrals[i].(isRewarded := true)]);
      Valid(s') && Follows(s, s')
  {
    hide CountRewards, CountRewarded, PeriodsOk, TermsOk, OrdersOk, PromosOk, EarningsOk, CodesOk;
    CountsAfterReward(s.referrals, i);
  }

  /** A free month joins the tables, within both bounds. */
  lemma KeepsOnFreeMonth(s: State, reward: Order, plan: Plan, isNow: bool)
    requires Valid(s) && reward.provider == Referral && reward.promoCode == None && reward.tenant < |s.tenants|
    requires reward.status.Paid? && StartsAfterAll(s.orders, reward)
    requires reward.status.period.end == Dates.AddMonths(reward.status.period.start, reward.months)
    requires CountRewards(s.orders, reward.tenant) < MAX_REFERRAL_MONTHS
    requires CountRewards(s.orders, reward.tenant) < CountRewarded(s.referrals, reward.tenant)
    ensures var s' := s.(orders := s.orders + [reward],
                         tenants := if isNow then SetPlan(s.tenants, reward.tenant, plan) else s.tenants);
      Valid(s') && Follows(s, s')
  {
    hide CountRewards, CountRewarded, CountUses, FindPromo, ShareOf, PeriodsOk, StartsAfterAll;
    PeriodsAfterAppend(s.orders, reward);
    CountsAfterAppend(s.orders, reward);
  }

  lemma RewardStartsAfterAll(orders: seq<Order>, tenant: Tenant, referrer: nat, now: int)
    ensures StartsAfterAll(orders, RewardOrder(orders, tenant, referrer, now))
  {
    hide Dates.AddMonths, LatestPaid;
    Dates.AddMonthsLater(RewardOrder(orders, tenant, referrer, now).status.period.start, 1);
  }

  lemma KeepsOnReward(s: State, referred: nat, now: int)
    requires Valid(s)
    ensures Valid(RewardReferrer(s, referred, now)) && Follows(s, RewardReferrer(s, referred, now))
  {
    hide Valid, Follows, PendingReferral, CountRewards, CountRewarded, RewardOrder, SetPlan, StartsAfterAll;
    var row := PendingReferral(s.referrals, referred);
    if row.None? {
      FollowsItself(s);
    } else {
      var s1 := s.(referrals := s.referrals[row.value := s.referrals[row.value].(isRewarded := true)]);
      var referrer := s.referrals[row.value].referrer;
      KeepsOnFlip(s, row.value);
      if CountRewards(s.orders, referrer) < MAX_REFERRAL_MONTHS && referrer < |s.tenants| {
        var reward := RewardOrder(s.orders, s.tenants[referrer], referrer, now);
        CountsAfterReward(s.referrals, row.value);
        RewardsBelowRewarded(s, referrer);
        RewardStartsAfterAll(s.orders, s.tenants[referrer], referrer, now);
        RewardIsFree(s.orders, s.tenants[referrer], referrer, now);
        var isNow := s.tenants[referrer].plan == Free && reward.status.period.start <= now;
        KeepsOnFreeMonth(s1, reward, reward.plan, isNow);
        FollowsTransitive(s, s1, RewardReferrer(s, referred, now));
      }
    }
  }

  lemma RewardsBelowRewarded(s: State, referrer: nat)
    requires Valid(s)
    ensures CountRewards(s.orders, referrer) <= CountRewarded(s.referrals, referrer)
  {
    hide CountRewards, CountRewarded;
  }

  lemma RewardIsFree(orders: seq<Order>, tenant: Tenant, referrer: nat, now: int)
    ensures var reward := RewardOrder(orders, tenant, referrer, now);
      && reward.tenant == referrer && reward.provider == Referral && reward.promoCode == None
      && reward.status.Paid? && reward.months == 1
      && reward.status.period.end == Dates.AddMonths(reward.status.period.start, 1)
  {
    hide LatestPaid, Dates.AddMonths;
  }

  lemma KeepsOnEarning(s: State, id: nat, now: int)
    requires Valid(s) && id < |s.orders|
    requires s.orders[id].status.Paid? && s.orders[id].status.period.paidAt == now
    ensures Valid(RecordEarning(s, id, now)) && Follows(s, RecordEarning(s, id, now))
  {
    hide Dates.AddMonths, FirstPaidAt, PartnerLink, Valid, Follows, ShareOf;
    var link := PartnerLink(s, s.orders[id].tenant);
    if RecordEarning(s, id, now) != s {
      KeepsOnNewEarning(s, id, Earning(
        link.value, s.orders[id].tenant, ShareOf(s.orders[id].amountMinor, s.partners[link.value].percent), now));
    } else {
      FollowsItself(s);
    }
  }

  lemma FollowsItself(s: State)
    ensures Follows(s, s)
  {
  }

  lemma KeepsOnNewEarning(s: State, id: nat, e: Earning)
    requires Valid(s) && id < |s.orders| && id !in s.earnings
    requires s.orders[id].status.Paid? && s.orders[id].amountMinor != 0 && e.partner < |s.partners|
    requires e == Earning(e.partner, s.orders[id].tenant,
                          ShareOf(s.orders[id].amountMinor, s.partners[e.partner].percent),
                          s.orders[id].status.period.paidAt)
    ensures Valid(s.(earnings := s.earnings[id := e])) && Follows(s, s.(earnings := s.earnings[id := e]))
  {
    hide ShareOf, PeriodsOk, TermsOk, OrdersOk, PromosOk, ReferralsOk, RewardsOk, CodesOk;
  }

  lemma KeepsOnSettle(s: State, id: nat, now: int)
    requires Valid(s) && id < |s.orders| && s.orders[id].status == Created
    ensures Valid(Settle(s, id, now)) && Follows(s, Settle(s, id, now))
  {
    hide Valid, Follows, RewardReferrer, RecordEarning, MarkPaid, SetPlan, CountPromoUse;
    var tenant := s.orders[id].tenant;
    var paid := PayOrder(s, id, now);
    var rewarded := RewardReferrer(paid, tenant, now);
    KeepsOnPayOrder(s, id, now);
    KeepsOnReward(paid, tenant, now);
    PaidRowAfterReward(s, id, now);
    var settled := RecordEarning(rewarded, id, now);
    KeepsOnEarning(rewarded, id, now);
    FollowsTransitive(s, paid, rewarded);
    FollowsTransitive(s, rewarded, settled);
  }

  /** After the reward step the order's own row is exactly the paid row. */
  lemma PaidRowAfterReward(s: State, id: nat, now: int)
    requires id < |s.orders|
    ensures var o := s.orders[id];
      var start := PaidUntil(s.orders, o.tenant, now);
      var rewarded := RewardReferrer(PayOrder(s, id, now), o.tenant, now);
      && id < |rewarded.orders|
      && rewarded.orders[id] == o.(status := Paid(Period(now, start, Dates.AddMonths(start, o.months))))
  {
    RewardKeepsOrders(PayOrder(s, id, now), s.orders[id].tenant, now);
  }

  lemma KeepsOnNotification(s: State, n: Notification, now: int)
    requires Valid(s)
    ensures Valid(ApplyNotification(s, n, now).0) && Follows(s, ApplyNotification(s, n, now).0)
  {
    hide Settle;
    if (n.provider, n.eventKey) !in s.events {
      var s1 := s.(events := s.events + {(n.provider, n.eventKey)});
      assert Valid(s1) && Follows(s, s1);
      if n.orderId < |s.orders| && s.orders[n.orderId].status == Created {
        if !n.isPaid {
          KeepsOnStatus(s1, n.orderId, Failed);
          FollowsTransitive(s, s1, ApplyNotification(s, n, now).0);
        } else if n.paidAmountMinor == s.orders[n.orderId].amountMinor {
          KeepsOnSettle(s1, n.orderId, now);
          FollowsTransitive(s, s1, Settle(s1, n.orderId, now));
        }
      }
    }
  }
}
