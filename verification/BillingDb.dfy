/**
 * The billing operations as the source performs them: row by row, on tables
 * that are updated in place. Each method ends in the state, and answers what,
 * its function in Billing says; the promises are proved about those functions.
 */
module BillingDb {
  import opened Wrappers
  import opened Pricing
  import opened Billing
  import opened BillingRuns
  import BillingInvariants
  import Dates

  class Database {
    var tenants: seq<Tenant>
    var orders: seq<Order>
    var events: set<(Provider, string)>
    var referrals: seq<ReferralRow>
    var promos: seq<Promo>
    var partners: seq<Partner>
    var earnings: map<nat, Earning>
    var targets: seq<Target>

    constructor ()
      ensures View() == EMPTY
    {
      tenants, orders, events, referrals := [], [], {}, [];
      promos, partners, earnings, targets := [], [], map[], [];
    }

    function View(): State
      reads this
    {
      State(tenants, orders, events, referrals, promos, partners, earnings, targets)
    }

    // ---- Checkout

    /** Pushes the typed, the remembered and the running discounts in turn. */
    method CollectDiscounts(input: Checkout, now: int) returns (r: Result<seq<Discount>, BillingError>)
      ensures r == UsableDiscounts(View(), input, now)
    {
      var use := PromoUse(input.tenant, input.plan, input.months, now);
      var discounts: seq<Discount> := [];
      if input.typedCode.Some? {
        var row := FindPromo(promos, input.typedCode.value);
        if row == None || !IsUsable(promos[row.value], use) {
          return Err(PromoCodeInvalid);
        }
        discounts := discounts + [ToDiscount(promos[row.value])];
      }
      var acquired := if input.tenant < |tenants| then tenants[input.tenant].acquiredCode else None;
      if acquired.Some? {
        var row := FindPromo(promos, acquired.value);
        if row.Some? && IsUsable(promos[row.value], use) {
          discounts := discounts + [ToDiscount(promos[row.value])];
        }
      }
      assert discounts == UsableOne(promos, input.typedCode, use) + UsableOne(promos, acquired, use);
      var campaigns: seq<Discount> := [];
      for i := 0 to |promos|
        invariant campaigns == UsableCampaigns(promos, i, use)
      {
        if promos[i].isCampaign && IsUsable(promos[i], use) {
          campaigns := InsertByPercent(campaigns, ToDiscount(promos[i]));
        }
      }
      return Ok(discounts + campaigns);
    }

    method CreateOrder(input: Checkout, now: int) returns (r: Result<nat, BillingError>)
      modifies this`orders
      ensures var created := Billing.CreateOrder(old(View()), input, now);
        && View() == OrKeep(old(View()), created)
        && r == if created.Ok? then Ok(|old(orders)|) else Err(created.error)
    {
      var discounts := CollectDiscounts(input, now);
      if discounts.Err? {
        return Err(discounts.error);
      }
      var price := Quote(QuoteInput(
        input.plan, input.months, input.currency,
        IsEarlyEligible(orders, input.tenant, input.earlySeats), discounts.value));
      if input.tenant >= |tenants| {
        return Err(ConstraintViolation);
      }
      orders := orders + [NewOrder(input.tenant, price)];
      return Ok(|orders| - 1);
    }

    // ---- Payments

    method CountPromoUse(code: string)
      modifies this`promos
      ensures promos == Billing.CountPromoUse(old(promos), Some(code))
    {
      var row := FindPromo(promos, code);
      if row.Some? {
        promos := promos[row.value := promos[row.value].(used := promos[row.value].used + 1)];
      }
    }

    /** Answers who was given a month. */
    method RewardReferrer(referred: nat, now: int) returns (rewarded: Option<nat>)
      modifies this
      ensures View() == Billing.RewardReferrer(old(View()), referred, now)
      ensures rewarded == if |orders| == |old(orders)| then None else Some(orders[|old(orders)|].tenant)
    {
      hide Dates.AddMonths, LatestPaid, PendingReferral, CountRewards;
      var row := PendingReferral(referrals, referred);
      if row == None {
        return None;
      }
      var referrer := referrals[row.value].referrer;
      referrals := referrals[row.value := referrals[row.value].(isRewarded := true)];
      if CountRewards(orders, referrer) >= MAX_REFERRAL_MONTHS || referrer >= |tenants| {
        return None;
      }
      var tenant := tenants[referrer];
      var latest := LatestPaid(orders, referrer, now);
      var periodStart, plan := now, tenant.plan;
      if latest.Some? {
        periodStart, plan := orders[latest.value].status.period.end, orders[latest.value].plan;
      } else {
        if tenant.trialEndsAt > now {
          periodStart := tenant.trialEndsAt;
        }
        if tenant.plan == Free {
          plan := Starter;
        }
      }
      orders := orders + [Order(referrer, plan, 1, 0, RUB, false, None, Referral,
                                Paid(Period(now, periodStart, Dates.AddMonths(periodStart, 1))))];
      if tenant.plan == Free && periodStart <= now {
        tenants := tenants[referrer := tenant.(plan := plan)];
      }
      return Some(referrer);
    }

    /** Answers what was earned now, if anything. */
    method RecordPartnerEarning(id: nat, now: int) returns (earned: int)
      requires id < |orders|
      modifies this`earnings
      ensures View() == RecordEarning(old(View()), id, now)
      ensures earned == if id in earnings && id !in old(earnings) then earnings[id].amountMinor else 0
    {
      hide Dates.AddMonths, FirstPaidAt, ShareOf, PartnerLink;
      var order := orders[id];
      var link := PartnerLink(View(), order.tenant);
      if link == None || order.amountMinor == 0 {
        return 0;
      }
      var partner := partners[link.value];
      var firstPaidAt := FirstPaidAt(orders, order.tenant, now);
      if now >= Dates.AddMonths(firstPaidAt, partner.months) {
        return 0;
      }
      if id in earnings {
        return 0;
      }
      earned := ShareOf(order.amountMinor, partner.percent);
      earnings := earnings[id := Earning(link.value, order.tenant, earned, now)];
    }

    /** The event is recorded before the order is looked at, and the order before anyone else's row. */
    method ApplyPaymentNotification(n: Notification, now: int) returns (outcome: Outcome)
      modifies this
      ensures (View(), outcome) == ApplyNotification(old(View()), n, now)
    {
      hide Dates.AddMonths, PaidUntil, Billing.RewardReferrer, RecordEarning, FindPromo;
      ghost var before := View();
      if (n.provider, n.eventKey) in events {
        return Duplicate;
      }
      events := events + {(n.provider, n.eventKey)};
      if n.orderId >= |orders| {
        return UnknownOrder;
      }
      var order := orders[n.orderId];
      if order.status != Created {
        return Duplicate;
      }
      if !n.isPaid {
        orders := orders[n.orderId := order.(status := Failed)];
        return NotPaid;
      }
      if n.paidAmountMinor != order.amountMinor {
        return AmountMismatch;
      }
      ghost var recorded := View();
      var periodStart := PaidUntil(orders, order.tenant, now);
      orders := orders[n.orderId := order.(status :=
        Paid(Period(now, periodStart, Dates.AddMonths(periodStart, order.months))))];
      if order.tenant < |tenants| {
        tenants := tenants[order.tenant := tenants[order.tenant].(plan := order.plan)];
      }
      if order.promoCode.Some? {
        CountPromoUse(order.promoCode.value);
      }
      assert View() == BillingInvariants.PayOrder(recorded, n.orderId, now);
      RewardKeepsOrders(View(), order.tenant, now);
      var _ := RewardReferrer(order.tenant, now);
      var _ := RecordPartnerEarning(n.orderId, now);
      return Applied;
    }

    method GrantManualPayment(g: Grant, now: int) returns (r: Result<nat, BillingError>)
      modifies this
      ensures (View(), r) == Billing.GrantManualPayment(old(View()), g, now)
    {
      if g.tenant >= |tenants| {
        return Err(ConstraintViolation);
      }
      var id := |orders|;
      orders := orders + [GrantOrder(g)];
      var outcome := ApplyPaymentNotification(GrantNotification(g, id), now);
      return if outcome == Applied then Ok(id) else Err(InternalError);
    }

    // ---- Refunds and plans

    method RequestRefund(tenant: nat, now: int) returns (r: Result<nat, BillingError>)
      modifies this`orders
      ensures (View(), r) == Billing.RequestRefund(old(View()), tenant, now)
    {
      var found := LatestRefundable(orders, tenant, now);
      if found == None {
        return Err(RefundWindowClosed);
      }
      var order := orders[found.value];
      orders := orders[found.value := order.(status := RefundRequested(order.status.period))];
      return Ok(found.value);
    }

    method ConfirmRefund(id: nat, now: int, freeLimit: nat) returns (r: Result<(), BillingError>)
      modifies this
      ensures (View(), r) == Billing.ConfirmRefund(old(View()), id, now, freeLimit)
    {
      hide PlanCovering, PauseExcess;
      if id >= |orders| || !orders[id].status.RefundRequested? {
        return Err(NotFound);
      }
      var order := orders[id];
      orders := orders[id := order.(status := Refunded(order.status.period.(end := now)))];
      var _ := SettleTenantPlan(order.tenant, now, freeLimit);
      return Ok(());
    }

    method SettleTenantPlan(tenant: nat, now: int, freeLimit: nat) returns (plan: Plan)
      modifies this`tenants, this`targets
      ensures View() == Billing.SettleTenantPlan(old(View()), tenant, now, freeLimit)
      ensures plan == PlanCovering(orders, tenant, now)
    {
      hide PlanCovering, PauseExcess;
      plan := PlanCovering(orders, tenant, now);
      if tenant < |tenants| {
        tenants := tenants[tenant := tenants[tenant].(plan := plan)];
      }
      if plan == Free {
        targets := PauseExcess(targets, tenant, freeLimit, now);
      }
    }

    /** Tenants whose plan already is what their paid time covers are passed over. */
    method ExpirePaidPlans(now: int, freeLimit: nat) returns (downgraded: seq<nat>)
      modifies this`tenants, this`targets
      ensures (View(), downgraded) == Billing.ExpirePaidPlans(old(View()), now, freeLimit)
    {
      hide PlanCovering, PauseExcess, HasPaidHistory;
      ghost var before := View();
      var selected := seq(|tenants|, i requires 0 <= i < |tenants| reads this => HasPaidHistory(View(), i));
      var plans := seq(|tenants|, i requires 0 <= i < |tenants| reads this => tenants[i].plan);
      downgraded := [];
      for tenant := 0 to |plans|
        invariant |tenants| == |plans|
        invariant (View(), downgraded) == ExpireFirst(before, tenant, now, freeLimit)
      {
        if selected[tenant] && PlanCovering(orders, tenant, now) != plans[tenant] {
          var plan := SettleTenantPlan(tenant, now, freeLimit);
          if plan == Free {
            downgraded := downgraded + [tenant];
          }
        }
      }
    }

    // ---- How tenants arrive

    /** Draw until a code nobody has is stored. */
    method GetReferralCode(tenant: nat, draws: seq<string>) returns (r: Result<string, BillingError>)
      modifies this`tenants
      ensures (View(), r) == ReferralCodeFor(old(View()), tenant, draws)
    {
      for attempt := 0 to |draws|
        invariant View() == old(View())
        invariant ReferralCodeFor(View(), tenant, draws) == ReferralCodeFor(View(), tenant, draws[attempt..])
      {
        assert draws[attempt..][1..] == draws[attempt + 1..];
        if tenant < |tenants| && tenants[tenant].referralCode.Some? {
          return Ok(tenants[tenant].referralCode.value);
        }
        if tenant < |tenants| && !CodeTaken(tenants, draws[attempt]) {
          tenants := tenants[tenant := tenants[tenant].(referralCode := Some(draws[attempt]))];
          return Ok(draws[attempt]);
        }
      }
      if tenant < |tenants| && tenants[tenant].referralCode.Some? {
        return Ok(tenants[tenant].referralCode.value);
      }
      return Err(InternalError);
    }

    method RecordAcquisition(input: Acquisition, now: int) returns (r: Result<AcquiredVia, BillingError>)
      modifies this`tenants, this`referrals
      ensures (View(), r) == Billing.RecordAcquisition(old(View()), input, now)
    {
      hide FindReferrer;
      if !IsFresh(View(), input.tenant, now) {
        return Ok(Organic);
      }
      var tenant := tenants[input.tenant];
      var referrer := FindReferrer(tenants, input.referralCode);
      if referrer.Some? && referrer.value != input.tenant && referrer.value !in input.sameEmail {
        if AlreadyReferred(referrals, input.tenant) {
          return Err(ConstraintViolation);
        }
        referrals := referrals + [ReferralRow(referrer.value, input.tenant, false)];
        tenants := tenants[input.tenant := tenant.(
          acquiredVia := ViaReferral, trialEndsAt := tenant.createdAt + REFERRAL_TRIAL_MS)];
        return Ok(ViaReferral);
      }
      if input.promoCode.Some? {
        tenants := tenants[input.tenant := tenant.(acquiredVia := ViaCode, acquiredCode := input.promoCode)];
        return Ok(ViaCode);
      }
      return Ok(Organic);
    }

    method RedeemTrialCode(tenant: nat, code: string, now: int) returns (r: Result<int, BillingError>)
      modifies this`tenants
      ensures (View(), r) == Billing.RedeemTrialCode(old(View()), tenant, code, now)
    {
      var found := FindPromo(promos, code);
      if found == None || promos[found.value].trialDays == None {
        return Err(PromoCodeInvalid);
      }
      var row := promos[found.value];
      if row.endsAt.Some? && row.endsAt.value <= now {
        return Err(PromoCodeInvalid);
      }
      if tenant >= |tenants| || HasPaidOrder(orders, tenant) || tenants[tenant].acquiredCode == Some(code) {
        return Err(PromoCodeInvalid);
      }
      var trialEndsAt := now + row.trialDays.value * DAY_MS;
      if tenants[tenant].trialEndsAt >= trialEndsAt {
        trialEndsAt := tenants[tenant].trialEndsAt;
      }
      tenants := tenants[tenant := tenants[tenant].(
        trialEndsAt := trialEndsAt, acquiredVia := ViaCode, acquiredCode := Some(row.code))];
      return Ok(trialEndsAt);
    }

    /** The mark and the code are one transaction: a clash of codes undoes the mark. */
    method IssueWinbackCode(tenant: nat, code: string, now: int) returns (r: Result<Option<string>, BillingError>)
      modifies this`tenants, this`promos
      ensures (View(), r) == Billing.IssueWinbackCode(old(View()), tenant, code, now)
    {
      hide FindPromo;
      if tenant >= |tenants| || tenants[tenant].winbackSentAt.Some? {
        return Ok(None);
      }
      var beforeTransaction := tenants;
      tenants := tenants[tenant := tenants[tenant].(winbackSentAt := Some(now))];
      if FindPromo(promos, code).Some? {
        tenants := beforeTransaction;
        return Err(ConstraintViolation);
      }
      promos := promos + [WinbackRow(code, tenant, now)];
      return Ok(Some(code));
    }
  }
}
