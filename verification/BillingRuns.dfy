/** Every run of billing operations, in any order and with any clock readings. */
module BillingRuns {
  import opened Wrappers
  import opened Pricing
  import opened Sequences
  import opened Billing
  import opened BillingInvariants

  datatype Op =
    | OpSignUp
    | OpSoftDelete(tenant: nat)
    | OpAddTarget(target: Target)
    | OpCheckout(checkout: Checkout)
    | OpNotify(notification: Notification)
    | OpGrant(grant: Grant)
    | OpRequestRefund(tenant: nat)
    | OpConfirmRefund(orderId: nat)
    | OpExpire
    | OpReferralCode(tenant: nat, draws: seq<string>)
    | OpAcquire(acquisition: Acquisition)
    | OpRedeemTrial(tenant: nat, code: string)
    | OpAddPromo(row: Promo)
    | OpWinback(tenant: nat, code: string)
    | OpAddPartner(code: string, partner: Partner)

  /** An operation and the clock reading it sees. */
  datatype Event = At(op: Op, now: int)

  /** A refused operation leaves the tables as they were. */
  function OrKeep(s: State, r: Result<State, BillingError>): State {
    if r.Ok? then r.value else s
  }

  function Step(s: State, e: Event, freeLimit: nat): State {
    match e.op
    case OpSignUp => SignUp(s, e.now)
    case OpSoftDelete(tenant) => SoftDelete(s, tenant)
    case OpAddTarget(target) => OrKeep(s, AddTarget(s, target))
    case OpCheckout(checkout) => OrKeep(s, CreateOrder(s, checkout, e.now))
    case OpNotify(notification) => ApplyNotification(s, notification, e.now).0
    case OpGrant(grant) => GrantManualPayment(s, grant, e.now).0
    case OpRequestRefund(tenant) => RequestRefund(s, tenant, e.now).0
    case OpConfirmRefund(orderId) => ConfirmRefund(s, orderId, e.now, freeLimit).0
    case OpExpire => ExpirePaidPlans(s, e.now, freeLimit).0
    case OpReferralCode(tenant, draws) => ReferralCodeFor(s, tenant, draws).0
    case OpAcquire(acquisition) => RecordAcquisition(s, acquisition, e.now).0
    case OpRedeemTrial(tenant, code) => RedeemTrialCode(s, tenant, code, e.now).0
    case OpAddPromo(row) => OrKeep(s, AddPromo(s, row))
    case OpWinback(tenant, code) => IssueWinbackCode(s, tenant, code, e.now).0
    case OpAddPartner(code, partner) => OrKeep(s, AddPartner(s, code, partner))
  }

  function Run(s: State, trace: seq<Event>, freeLimit: nat): State
    decreases |trace|
  {
    if trace == [] then s else Run(Step(s, trace[0], freeLimit), trace[1..], freeLimit)
  }

  // ---- Every step keeps the invariant

  lemma KeepsOnCheckout(s: State, input: Checkout, now: int)
    requires Valid(s) && CreateOrder(s, input, now).Ok?
    ensures Valid(CreateOrder(s, input, now).value) && Follows(s, CreateOrder(s, input, now).value)
  {
    hide Valid, Follows, IsEarlyEligible, UsableDiscounts, QuoteOf, QuoteInput.Candidate;
    var discounts := UsableDiscounts(s, input, now).value;
    var quoted := QuoteInput(input.plan, input.months, input.currency,
                             IsEarlyEligible(s.orders, input.tenant, input.earlySeats), discounts);
    QuoteBounds(quoted);
    QuoteIsMinimum(quoted);
    var o := NewOrder(input.tenant, QuoteOf(quoted));
    if o.promoCode.Some? {
      var d :| d in discounts && d.code == o.promoCode.value;
      assert IsOffered(s.promos, d, PromoUse(input.tenant, input.plan, input.months, now));
    }
    KeepsOnNewOrder(s, o);
  }

  lemma KeepsOnGrant(s: State, g: Grant, now: int)
    requires Valid(s)
    ensures Valid(GrantManualPayment(s, g, now).0) && Follows(s, GrantManualPayment(s, g, now).0)
  {
    hide Valid, Follows, ApplyNotification;
    if g.tenant < |s.tenants| {
      var inserted := s.(orders := s.orders + [GrantOrder(g)]);
      KeepsOnNewOrder(s, GrantOrder(g));
      KeepsOnNotification(inserted, GrantNotification(g, |s.orders|), now);
      FollowsTransitive(s, inserted, GrantManualPayment(s, g, now).0);
    } else {
      FollowsItself(s);
    }
  }

  lemma KeepsOnRefund(s: State, tenant: nat, id: nat, now: int, freeLimit: nat)
    requires Valid(s)
    ensures Valid(RequestRefund(s, tenant, now).0) && Follows(s, RequestRefund(s, tenant, now).0)
    ensures Valid(ConfirmRefund(s, id, now, freeLimit).0) && Follows(s, ConfirmRefund(s, id, now, freeLimit).0)
  {
    hide Valid, Follows, PlanCovering, PauseExcess;
    FollowsItself(s);
    var found := LatestRefundable(s.orders, tenant, now);
    if found.Some? {
      KeepsOnStatus(s, found.value, RefundRequested(s.orders[found.value].status.period));
    }
    if id < |s.orders| && s.orders[id].status.RefundRequested? {
      var o := s.orders[id];
      var refunded := Refunded(o.status.period.(end := now));
      var s1 := s.(orders := s.orders[id := o.(status := refunded)]);
      KeepsOnStatus(s, id, refunded);
      KeepsOnPlan(s1, o.tenant, now, freeLimit);
      FollowsTransitive(s, s1, SettleTenantPlan(s1, o.tenant, now, freeLimit));
    }
  }

  lemma KeepsOnPlan(s: State, tenant: nat, now: int, freeLimit: nat)
    requires Valid(s)
    ensures Valid(SettleTenantPlan(s, tenant, now, freeLimit))
      && Follows(s, SettleTenantPlan(s, tenant, now, freeLimit))
  {
    hide PlanCovering, PauseExcess;
    var s' := SettleTenantPlan(s, tenant, now, freeLimit);
    KeepsOnTenants(s, s'.tenants, s'.targets);
  }

  lemma {:induction false} KeepsOnExpire(s: State, n: nat, now: int, freeLimit: nat)
    requires Valid(s) && n <= |s.tenants|
    ensures Valid(ExpireFirst(s, n, now, freeLimit).0) && Follows(s, ExpireFirst(s, n, now, freeLimit).0)
  {
    hide Valid, Follows, PlanCovering, HasPaidHistory, SettleTenantPlan;
    FollowsItself(s);
    if n > 0 {
      var before := ExpireFirst(s, n - 1, now, freeLimit).0;
      KeepsOnExpire(s, n - 1, now, freeLimit);
      KeepsOnPlan(before, n - 1, now, freeLimit);
      FollowsTransitive(s, before, SettleTenantPlan(before, n - 1, now, freeLimit));
    }
  }

  lemma {:induction false} KeepsOnReferralCode(s: State, tenant: nat, draws: seq<string>)
    requires Valid(s)
    ensures Valid(ReferralCodeFor(s, tenant, draws).0) && Follows(s, ReferralCodeFor(s, tenant, draws).0)
    decreases |draws|
  {
    FollowsItself(s);
    var (s', r) := ReferralCodeFor(s, tenant, draws);
    if s' != s && draws != [] {
      if CodeTaken(s.tenants, draws[0]) {
        KeepsOnReferralCode(s, tenant, draws[1..]);
      } else if tenant < |s.tenants| {
        KeepsOnTenants(s, s'.tenants, s'.targets);
      } else {
        KeepsOnReferralCode(s, tenant, draws[1..]);
      }
    }
  }

  lemma KeepsOnAcquisition(s: State, input: Acquisition, now: int)
    requires Valid(s)
    ensures Valid(RecordAcquisition(s, input, now).0) && Follows(s, RecordAcquisition(s, input, now).0)
  {
    hide FindReferrer, PeriodsOk, TermsOk, OrdersOk, PromosOk, EarningsOk;
    FollowsItself(s);
    var (s', r) := RecordAcquisition(s, input, now);
    if r == Ok(ViaReferral) {
      var row := s'.referrals[|s.referrals|];
      forall t: nat ensures CountRewarded(s'.referrals, t) == CountRewarded(s.referrals, t) {
        CountAppend(s.referrals, row, IsRewardedBy(t));
      }
      KeepsOnTenants(s, s'.tenants, s'.targets);
    } else if r == Ok(ViaCode) {
      KeepsOnTenants(s, s'.tenants, s'.targets);
    }
  }

  lemma NewCodeUnused(promos: seq<Promo>, orders: seq<Order>, tenants: nat, code: string)
    requires OrdersOk(orders, tenants, promos) && FindPromo(promos, code) == None
    ensures CountUses(orders, code) == 0
  {
    if CountUses(orders, code) > 0 {
      CountPositive(orders, IsUseOf(code));
    }
  }

  lemma {:induction false} CountPositive<T>(s: seq<T>, p: T -> bool)
    requires Count(s, p) > 0
    ensures exists i :: 0 <= i < |s| && p(s[i])
  {
    var n := |s| - 1;
    if !p(s[n]) {
      CountPositive(s[..n], p);
    }
  }

  lemma KeepsOnAddPromo(s: State, row: Promo)
    requires Valid(s) && AddPromo(s, row).Ok?
    ensures Valid(AddPromo(s, row).value) && Follows(s, AddPromo(s, row).value)
  {
    hide PeriodsOk, TermsOk, ReferralsOk, RewardsOk, EarningsOk, CodesOk, CountUses;
    var s' := AddPromo(s, row).value;
    NewCodeUnused(s.promos, s.orders, |s.tenants|, row.code);
    forall i | 0 <= i < |s.orders| && s.orders[i].promoCode.Some?
      ensures FindPromo(s'.promos, s.orders[i].promoCode.value).Some?
    {
      FindPromoStays(s.promos, s'.promos, s.orders[i].promoCode.value);
    }
  }

  lemma KeepsOnWinback(s: State, tenant: nat, code: string, now: int)
    requires Valid(s)
    ensures Valid(IssueWinbackCode(s, tenant, code, now).0)
      && Follows(s, IssueWinbackCode(s, tenant, code, now).0)
  {
    hide Valid, Follows, AddPromo;
    FollowsItself(s);
    if tenant < |s.tenants| && s.tenants[tenant].winbackSentAt == None {
      var marked := s.(tenants := s.tenants[tenant := s.tenants[tenant].(winbackSentAt := Some(now))]);
      var added := AddPromo(marked, WinbackRow(code, tenant, now));
      MarkKeeps(s, tenant, now);
      if added.Ok? {
        KeepsOnAddPromo(marked, WinbackRow(code, tenant, now));
        FollowsTransitive(s, marked, added.value);
      }
    }
  }

  lemma MarkKeeps(s: State, tenant: nat, now: int)
    requires Valid(s) && tenant < |s.tenants| && s.tenants[tenant].winbackSentAt == None
    ensures var marked := s.(tenants := s.tenants[tenant := s.tenants[tenant].(winbackSentAt := Some(now))]);
      Valid(marked) && Follows(s, marked)
  {
    KeepsOnTenants(s, s.tenants[tenant := s.tenants[tenant].(winbackSentAt := Some(now))], s.targets);
  }

  lemma KeepsOnAddPartner(s: State, code: string, partner: Partner)
    requires Valid(s) && AddPartner(s, code, partner).Ok?
    ensures Valid(AddPartner(s, code, partner).value) && Follows(s, AddPartner(s, code, partner).value)
  {
    var joined := s.(partners := s.partners + [partner]);
    assert Valid(joined) && Follows(s, joined) by {
      hide PeriodsOk, TermsOk, OrdersOk, PromosOk, ReferralsOk, RewardsOk, CodesOk;
    }
    hide Valid, Follows;
    KeepsOnAddPromo(joined, PartnerRow(code, |s.partners|));
    FollowsTransitive(s, joined, AddPartner(s, code, partner).value);
  }

  lemma KeepsOnSimple(s: State, e: Event, freeLimit: nat)
    requires Valid(s)
    requires e.op.OpSignUp? || e.op.OpSoftDelete? || e.op.OpAddTarget? || e.op.OpRedeemTrial?
    ensures Valid(Step(s, e, freeLimit)) && Follows(s, Step(s, e, freeLimit))
  {
    hide Valid, Follows, IsTrialCode, HasPaidOrder;
    FollowsItself(s);
    var s' := Step(s, e, freeLimit);
    assert CodesOk(s'.tenants) by { ValidCodes(s); }
    KeepsOnTenants(s, s'.tenants, s'.targets);
  }

  lemma ValidCodes(s: State)
    requires Valid(s)
    ensures CodesOk(s.tenants)
  {
  }

  /** The invariant is kept by every operation, at any clock reading, and rows only move forward. */
  lemma StepKeeps(s: State, e: Event, freeLimit: nat)
    requires Valid(s)
    ensures Valid(Step(s, e, freeLimit)) && Follows(s, Step(s, e, freeLimit))
  {
    hide Valid, Follows, ApplyNotification, GrantManualPayment, RequestRefund, ConfirmRefund, ExpirePaidPlans,
      ReferralCodeFor, RecordAcquisition, RedeemTrialCode, AddPromo, IssueWinbackCode, AddPartner, CreateOrder;
    FollowsItself(s);
    match e.op {
      case OpSignUp => KeepsOnSimple(s, e, freeLimit);
      case OpSoftDelete(_) => KeepsOnSimple(s, e, freeLimit);
      case OpAddTarget(_) => KeepsOnSimple(s, e, freeLimit);
      case OpRedeemTrial(_, _) => KeepsOnSimple(s, e, freeLimit);
      case OpCheckout(checkout) =>
        if CreateOrder(s, checkout, e.now).Ok? { KeepsOnCheckout(s, checkout, e.now); }
      case OpNotify(n) => KeepsOnNotification(s, n, e.now);
      case OpGrant(g) => KeepsOnGrant(s, g, e.now);
      case OpRequestRefund(tenant) => KeepsOnRefund(s, tenant, 0, e.now, freeLimit);
      case OpConfirmRefund(id) => KeepsOnRefund(s, 0, id, e.now, freeLimit);
      case OpExpire => ExpireIsFirstAll(s, e.now, freeLimit); KeepsOnExpire(s, |s.tenants|, e.now, freeLimit);
      case OpReferralCode(tenant, draws) => KeepsOnReferralCode(s, tenant, draws);
      case OpAcquire(acquisition) => KeepsOnAcquisition(s, acquisition, e.now);
      case OpAddPromo(row) =>
        if AddPromo(s, row).Ok? { KeepsOnAddPromo(s, row); }
      case OpWinback(tenant, code) => KeepsOnWinback(s, tenant, code, e.now);
      case OpAddPartner(code, partner) =>
        if AddPartner(s, code, partner).Ok? { KeepsOnAddPartner(s, code, partner); }
    }
  }

  lemma ExpireIsFirstAll(s: State, now: int, freeLimit: nat)
    ensures ExpirePaidPlans(s, now, freeLimit) == ExpireFirst(s, |s.tenants|, now, freeLimit)
  {
  }

  lemma {:induction false} RunKeeps(s: State, trace: seq<Event>, freeLimit: nat)
    requires Valid(s)
    ensures Valid(Run(s, trace, freeLimit)) && Follows(s, Run(s, trace, freeLimit))
    decreases |trace|
  {
    hide Valid, Follows, Step;
    FollowsItself(s);
    if trace != [] {
      var next := Step(s, trace[0], freeLimit);
      StepKeeps(s, trace[0], freeLimit);
      RunKeeps(next, trace[1..], freeLimit);
      FollowsTransitive(s, next, Run(s, trace, freeLimit));
    }
  }

  lemma EmptyIsValid()
    ensures Valid(EMPTY)
  {
  }

  /** Every state a run from the empty tables can reach. */
  lemma ReachableIsValid(trace: seq<Event>, freeLimit: nat)
    ensures Valid(Run(EMPTY, trace, freeLimit))
  {
    EmptyIsValid();
    RunKeeps(EMPTY, trace, freeLimit);
  }
}
