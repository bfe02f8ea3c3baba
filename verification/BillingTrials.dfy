/** Codes that lengthen the trial, over any run. */
module BillingTrials {
  import opened Wrappers
  import opened Billing
  import opened BillingInvariants
  import opened BillingRuns
  import Dates
  import Decimal

  // ---- What a tenant remembers

  /** The same tenants, differing in their plans at most. */
  ghost predicate PlansOnly(tenants: seq<Tenant>, tenants': seq<Tenant>) {
    && |tenants| == |tenants'|
    && forall i :: 0 <= i < |tenants| ==> tenants'[i] == tenants[i].(plan := tenants'[i].plan)
  }

  lemma NotificationSetsPlans(s: State, n: Notification, now: int)
    ensures PlansOnly(s.tenants, ApplyNotification(s, n, now).0.tenants)
  {
    hide RewardOrder, FirstPaidAt, PartnerLink, Dates.AddMonths, CountPromoUse, MarkPaid, CountRewards;
    if ApplyNotification(s, n, now).1 == Applied {
      var s1 := s.(events := s.events + {(n.provider, n.eventKey)});
      RewardKeepsOrders(PayOrder(s1, n.orderId, now), s.orders[n.orderId].tenant, now);
    }
  }

  lemma {:induction false} ExpirySetsPlans(s: State, n: nat, now: int, freeLimit: nat)
    requires n <= |s.tenants|
    ensures PlansOnly(s.tenants, ExpireFirst(s, n, now, freeLimit).0.tenants)
  {
    hide PlanCovering, PauseExcess, HasPaidHistory;
    if n > 0 {
      ExpirySetsPlans(s, n - 1, now, freeLimit);
    }
  }

  lemma {:induction false} DrawsKeepCodes(s: State, tenant: nat, draws: seq<string>)
    ensures var s' := ReferralCodeFor(s, tenant, draws).0;
      && |s'.tenants| == |s.tenants|
      && forall i :: 0 <= i < |s.tenants| ==>
          s'.tenants[i] == s.tenants[i].(referralCode := s'.tenants[i].referralCode)
    decreases |draws|
  {
    if draws != [] {
      DrawsKeepCodes(s, tenant, draws[1..]);
    }
  }

  /** The operation redeems a trial code for the tenant. */
  predicate Redeems(s: State, e: Event, tenant: nat) {
    e.op.OpRedeemTrial? && e.op.tenant == tenant && RedeemTrialCode(s, tenant, e.op.code, e.now).1.Ok?
  }

  /** A tenant with a recorded source remembers its code until a trial code is redeemed, and then that one. */
  lemma RememberedAfterStep(s: State, e: Event, tenant: nat, freeLimit: nat)
    requires tenant < |s.tenants| && s.tenants[tenant].acquiredVia != Organic
    ensures tenant < |Step(s, e, freeLimit).tenants|
    ensures var t, t' := s.tenants[tenant], Step(s, e, freeLimit).tenants[tenant];
      && t'.acquiredVia != Organic
      && t'.acquiredCode == if Redeems(s, e, tenant) then Some(e.op.code) else t.acquiredCode
  {
    hide ApplyNotification, PlanCovering, PauseExcess, ExpireFirst, ReferralCodeFor, FindReferrer,
      IsTrialCode, HasPaidOrder, CreateOrder, FindPromo, Decimal.Print;
    match e.op {
      case OpNotify(n) => NotificationSetsPlans(s, n, e.now);
      case OpGrant(g) =>
        NotificationSetsPlans(s.(orders := s.orders + [GrantOrder(g)]), GrantNotification(g, |s.orders|), e.now);
      case OpExpire => ExpirySetsPlans(s, |s.tenants|, e.now, freeLimit);
      case OpReferralCode(t, draws) => DrawsKeepCodes(s, t, draws);
      case OpCheckout(checkout) => CheckoutKeepsTenants(s, checkout, e.now);
      case _ =>
    }
  }

  lemma CheckoutKeepsTenants(s: State, input: Checkout, now: int)
    ensures CreateOrder(s, input, now).Ok? ==> CreateOrder(s, input, now).value.tenants == s.tenants
  {
    hide CheckoutQuote;
  }

  /** The trial code redeemed last for the tenant in the trace, or `code` if there is none. */
  function LastRedeemed(s: State, trace: seq<Event>, tenant: nat, code: string, freeLimit: nat): string
    decreases |trace|
  {
    if trace == [] then code
    else
      var latest := if Redeems(s, trace[0], tenant) then trace[0].op.code else code;
      LastRedeemed(Step(s, trace[0], freeLimit), trace[1..], tenant, latest, freeLimit)
  }

  lemma {:induction false} RememberedIsLastRedeemed(
    s: State, trace: seq<Event>, tenant: nat, code: string, freeLimit: nat)
    requires tenant < |s.tenants| && s.tenants[tenant].acquiredVia != Organic
    requires s.tenants[tenant].acquiredCode == Some(code)
    ensures tenant < |Run(s, trace, freeLimit).tenants|
    ensures Run(s, trace, freeLimit).tenants[tenant].acquiredCode
      == Some(LastRedeemed(s, trace, tenant, code, freeLimit))
    decreases |trace|
  {
    hide Step, Redeems;
    if trace != [] {
      RememberedAfterStep(s, trace[0], tenant, freeLimit);
      RedeemsBy(s, trace[0], tenant);
      var latest := if Redeems(s, trace[0], tenant) then trace[0].op.code else code;
      RememberedIsLastRedeemed(Step(s, trace[0], freeLimit), trace[1..], tenant, latest, freeLimit);
    }
  }

  lemma RedeemsBy(s: State, e: Event, tenant: nat)
    ensures Redeems(s, e, tenant) ==> e.op.OpRedeemTrial?
  {
  }

  // ---- Redeeming a code

  /** The row gives free days and has not ended. */
  predicate GivesDays(row: Promo, code: string, now: int) {
    row.code == code && row.trialDays.Some? && (row.endsAt == None || now < row.endsAt.value)
  }

  /**
   * A code is redeemed exactly when its row gives days, the tenant has no paid
   * order and does not remember that code. The trial then runs the row's days
   * from now, or as long as before if that is longer, and the code is remembered.
   */
  lemma RedeemExactly(s: State, tenant: nat, code: string, now: int)
    requires Valid(s)
    ensures var (s', r) := RedeemTrialCode(s, tenant, code, now);
      && (r.Ok? <==>
            && (exists i :: 0 <= i < |s.promos| && GivesDays(s.promos[i], code, now))
            && tenant < |s.tenants| && s.tenants[tenant].acquiredCode != Some(code)
            && forall i :: 0 <= i < |s.orders| ==> !(s.orders[i].tenant == tenant && s.orders[i].status.Paid?))
      && (r.Err? ==> (s', r) == (s, Err(PromoCodeInvalid)))
      && (forall i :: 0 <= i < |s.promos| && GivesDays(s.promos[i], code, now) && r.Ok? ==>
            && r.value >= s.tenants[tenant].trialEndsAt
            && r.value >= now + s.promos[i].trialDays.value * 86_400_000
            && (r.value == s.tenants[tenant].trialEndsAt
                || r.value == now + s.promos[i].trialDays.value * 86_400_000)
            && s' == s.(tenants := s.tenants[tenant := s.tenants[tenant].(
                          trialEndsAt := r.value, acquiredVia := ViaCode, acquiredCode := Some(code))]))
  {
    hide Valid, FindPromo;
    forall i | 0 <= i < |s.promos| && s.promos[i].code == code
      ensures FindPromo(s.promos, code) == Some(i)
    {
      CodeIsAt(s, i);
    }
    assert HasPaidOrder(s.orders, tenant) <==>
      exists i :: 0 <= i < |s.orders| && s.orders[i].tenant == tenant && s.orders[i].status.Paid?;
  }

  lemma CodeIsAt(s: State, i: nat)
    requires Valid(s) && i < |s.promos|
    ensures FindPromo(s.promos, s.promos[i].code) == Some(i)
  {
    hide FindPromo;
    FindPromoIs(s.promos, i);
  }

  // ---- Once per tenant?

  /** The same code is refused a second time as long as it is the one remembered, and the trial never gets shorter. */
  lemma TrialCodeOnce(s: State, tenant: nat, code: string, now: int, later: int)
    requires RedeemTrialCode(s, tenant, code, now).1.Ok?
    ensures var (s', trialEndsAt) := RedeemTrialCode(s, tenant, code, now);
      && tenant < |s.tenants| && s.tenants[tenant].trialEndsAt <= trialEndsAt.value
      && s'.tenants[tenant].trialEndsAt == trialEndsAt.value
      && RedeemTrialCode(s', tenant, code, later) == (s', Err(PromoCodeInvalid))
  {
    hide HasPaidOrder, IsTrialCode;
  }

  /**
   * After a code was redeemed, and through any run, the same code works again
   * exactly when it has not ended, nothing is paid, and the trial code
   * redeemed last since then is another one.
   */
  lemma TrialCodeAgainExactly(
    s: State, tenant: nat, code: string, now: int, trace: seq<Event>, freeLimit: nat, later: int)
    requires RedeemTrialCode(s, tenant, code, now).1.Ok?
    ensures var s' := RedeemTrialCode(s, tenant, code, now).0;
      var end := Run(s', trace, freeLimit);
      RedeemTrialCode(end, tenant, code, later).1.Ok? <==>
        && IsTrialCode(end.promos, code, later) && !HasPaidOrder(end.orders, tenant)
        && LastRedeemed(s', trace, tenant, code, freeLimit) != code
  {
    hide HasPaidOrder, IsTrialCode, Run, LastRedeemed;
    var s' := RedeemTrialCode(s, tenant, code, now).0;
    RememberedIsLastRedeemed(s', trace, tenant, code, freeLimit);
  }

  /**
   * A code that a new account only arrived with counts as used already: through
   * any run it can be redeemed exactly when it is a trial code that has not
   * ended, nothing is paid, and another trial code was redeemed last.
   */
  lemma RememberedCodeWorksExactly(
    s: State, input: Acquisition, now: int, trace: seq<Event>, freeLimit: nat, later: int)
    requires RecordAcquisition(s, input, now).1 == Ok(ViaCode)
    ensures input.promoCode.Some?
    ensures var s', code := RecordAcquisition(s, input, now).0, input.promoCode.value;
      var end := Run(s', trace, freeLimit);
      RedeemTrialCode(end, input.tenant, code, later).1.Ok? <==>
        && IsTrialCode(end.promos, code, later) && !HasPaidOrder(end.orders, input.tenant)
        && LastRedeemed(s', trace, input.tenant, code, freeLimit) != code
  {
    hide HasPaidOrder, IsTrialCode, Run, LastRedeemed, FindReferrer;
    var s', code := RecordAcquisition(s, input, now).0, input.promoCode.value;
    RememberedIsLastRedeemed(s', trace, input.tenant, code, freeLimit);
  }

  /** `a` and `b` redeemed in turn, `a` first, at the given times. */
  function InTurn(tenant: nat, a: string, b: string, times: seq<int>): seq<Event>
    decreases |times|
  {
    if times == [] then []
    else [At(OpRedeemTrial(tenant, a), times[0])] + InTurn(tenant, b, a, times[1..])
  }

  /** Every redemption in the trace succeeds. */
  ghost predicate AllRedeem(s: State, trace: seq<Event>, tenant: nat, freeLimit: nat)
    decreases |trace|
  {
    trace == [] ||
    (Redeems(s, trace[0], tenant) && AllRedeem(Step(s, trace[0], freeLimit), trace[1..], tenant, freeLimit))
  }

  /**
   * "Once per tenant" does not hold: only the last code is remembered, so a
   * tenant without a paid order can redeem two trial codes in turn as often as
   * it likes, as long as they have not ended.
   */
  lemma {:induction false} TrialCodesAlternate(
    s: State, tenant: nat, a: string, b: string, times: seq<int>, freeLimit: nat)
    requires tenant < |s.tenants| && !HasPaidOrder(s.orders, tenant) && a != b
    requires forall i :: 0 <= i < |times| ==>
      IsTrialCode(s.promos, a, times[i]) && IsTrialCode(s.promos, b, times[i])
    requires s.tenants[tenant].acquiredCode != Some(a)
    ensures |InTurn(tenant, a, b, times)| == |times|
    ensures AllRedeem(s, InTurn(tenant, a, b, times), tenant, freeLimit)
    decreases |times|
  {
    hide HasPaidOrder, IsTrialCode;
    if times != [] {
      var e := At(OpRedeemTrial(tenant, a), times[0]);
      assert InTurn(tenant, a, b, times)[1..] == InTurn(tenant, b, a, times[1..]);
      TrialCodesAlternate(Step(s, e, freeLimit), tenant, b, a, times[1..], freeLimit);
    }
  }

  // ---- Trial codes and partners

  /** A partner's code stays that partner's through any run. */
  lemma PartnerOfCodeStays(s: State, code: string, trace: seq<Event>, freeLimit: nat)
    requires Valid(s) && PartnerOfCode(s, code).Some?
    ensures PartnerOfCode(Run(s, trace, freeLimit), code) == PartnerOfCode(s, code)
  {
    hide Run, Valid;
    RunKeeps(s, trace, freeLimit);
    var end := Run(s, trace, freeLimit);
    var i := FindPromo(s.promos, code).value;
    assert end.promos[i].code == code && end.promos[i].partner == s.promos[i].partner;
    assert FindPromo(end.promos, code) == Some(i) by { CodeIsAt(end, i); }
  }

  /**
   * A customer counts as the partner's whose code it redeemed last, the code it
   * came with included: it stays with the partner it came through exactly until
   * it redeems a trial code that is not that partner's.
   */
  lemma CustomerStaysWithPartner(s: State, trace: seq<Event>, tenant: nat, freeLimit: nat)
    requires Valid(s) && tenant < |s.tenants| && s.tenants[tenant].acquiredVia != Organic
    requires PartnerLink(s, tenant).Some?
    ensures s.tenants[tenant].acquiredCode.Some?
    ensures var end, code := Run(s, trace, freeLimit), s.tenants[tenant].acquiredCode.value;
      var last := LastRedeemed(s, trace, tenant, code, freeLimit);
      && PartnerLink(end, tenant) == PartnerOfCode(end, last)
      && (last == code ==> PartnerLink(end, tenant) == PartnerLink(s, tenant))
      && (PartnerLink(end, tenant) == PartnerLink(s, tenant) <==>
            PartnerOfCode(end, last) == PartnerOfCode(end, code))
  {
    hide Run, Valid, LastRedeemed, PartnerOfCode;
    var code := s.tenants[tenant].acquiredCode.value;
    RememberedIsLastRedeemed(s, trace, tenant, code, freeLimit);
    PartnerOfCodeStays(s, code, trace, freeLimit);
  }
}
