/** Runs from the empty tables that show what the theorems about billing leave room for. */
module BillingExamples {
  import opened Wrappers
  import opened Pricing
  import opened Billing
  import opened BillingInvariants
  import opened BillingRuns
  import opened BillingPlans
  import opened BillingCodes
  import Dates
  import Decimal

  const FREE_LIMIT := 3

  const NEW_TENANT := Tenant(Free, 0, 0, Organic, None, None, None, false)

  lemma RunCons(s: State, e: Event, rest: seq<Event>)
    ensures Run(s, [e] + rest, FREE_LIMIT) == Run(Step(s, e, FREE_LIMIT), rest, FREE_LIMIT)
  {
    hide Step;
    assert ([e] + rest)[1..] == rest;
  }

  lemma {:induction false} RunConcat(s: State, a: seq<Event>, b: seq<Event>)
    ensures Run(s, a + b, FREE_LIMIT) == Run(Run(s, a, FREE_LIMIT), b, FREE_LIMIT)
    decreases |a|
  {
    hide Step;
    if a == [] {
      assert a + b == b;
    } else {
      assert (a + b)[1..] == a[1..] + b;
      RunConcat(Step(s, a[0], FREE_LIMIT), a[1..], b);
    }
  }

  lemma RunOne(s: State, e: Event)
    ensures Run(s, [e], FREE_LIMIT) == Step(s, e, FREE_LIMIT)
  {
    hide Step;
    assert [e] == [e] + [];
    RunCons(s, e, []);
  }

  lemma RunThree(s: State, s1: State, s2: State, s3: State, trace: seq<Event>)
    requires |trace| == 3 && Step(s, trace[0], FREE_LIMIT) == s1 && Step(s1, trace[1], FREE_LIMIT) == s2
    requires Step(s2, trace[2], FREE_LIMIT) == s3
    ensures Run(s, trace, FREE_LIMIT) == s3
  {
    hide Step;
    assert trace == [trace[0]] + ([trace[1]] + [trace[2]]);
    RunCons(s, trace[0], [trace[1]] + [trace[2]]);
    RunCons(s1, trace[1], [trace[2]]);
    RunOne(s2, trace[2]);
  }

  /** A manual payment of one month by a tenant without paid time, up to its reward and its earning. */
  lemma FirstGrant(s: State, g: Grant, now: int)
    requires g.tenant < |s.tenants| && g.months == 1
    requires (Manual, "manual:" + Decimal.Print(|s.orders|)) !in s.events
    requires forall i :: 0 <= i < |s.orders| ==> !PaidBy(s.orders[i], g.tenant)
    ensures var id := |s.orders|;
      var o := GrantOrder(g).(status := Paid(Period(now, now, Dates.AddMonths(now, 1))));
      var paid := s.(orders := s.orders + [o],
                     events := s.events + {(Manual, "manual:" + Decimal.Print(id))},
                     tenants := s.tenants[g.tenant := s.tenants[g.tenant].(plan := g.plan)]);
      Step(s, At(OpGrant(g), now), FREE_LIMIT) == RecordEarning(RewardReferrer(paid, g.tenant, now), id, now)
  {
    hide Dates.AddMonths, RecordEarning, RewardReferrer, Decimal.Print, LatestPaid;
    var id := |s.orders|;
    var inserted := s.(orders := s.orders + [GrantOrder(g)]);
    assert inserted.orders[id] == GrantOrder(g);
    assert LatestPaid(inserted.orders, g.tenant, now) == None by {
      assert forall i :: 0 <= i < |inserted.orders| ==> !PaidBy(inserted.orders[i], g.tenant);
    }
    var o := GrantOrder(g).(status := Paid(Period(now, now, Dates.AddMonths(now, 1))));
    assert inserted.orders[id := o] == s.orders + [o];
  }

  // ---- A partner's customer with a refund

  const PARTNER := Partner(30, 12)
  const MONTH := Grant(0, Starter, 1, 29000, RUB, false)

  /** Sign-up through a partner's code, a month paid by hand, and its refund asked for. */
  function AskedBack(): seq<Event> {
    [At(OpSignUp, 0),
     At(OpAddPartner("BLOG", PARTNER), 0),
     At(OpAcquire(Acquisition(0, None, Some("BLOG"), {})), 0),
     At(OpGrant(MONTH), 0),
     At(OpRequestRefund(0), 0)]
  }

  const CUSTOMER := Tenant(Free, 0, 0, ViaCode, Some("BLOG"), None, None, false)

  function FirstPeriod(): Period {
    Period(0, 0, Dates.AddMonths(0, 1))
  }

  function FirstMonth(): Order {
    GrantOrder(MONTH).(status := Paid(FirstPeriod()))
  }

  function Joined(): State {
    EMPTY.(tenants := [CUSTOMER], promos := [PartnerRow("BLOG", 0)], partners := [PARTNER])
  }

  lemma JoinedIsReached(trace: seq<Event>)
    requires trace == AskedBack()
    ensures Run(EMPTY, trace[..3], FREE_LIMIT) == Joined()
  {
    var s1 := EMPTY.(tenants := [NEW_TENANT]);
    var s2 := s1.(promos := [PartnerRow("BLOG", 0)], partners := [PARTNER]);
    assert Step(EMPTY, trace[0], FREE_LIMIT) == s1;
    assert Step(s1, trace[1], FREE_LIMIT) == s2;
    assert Step(s2, trace[2], FREE_LIMIT) == Joined();
    hide Step;
    RunThree(EMPTY, s1, s2, Joined(), trace[..3]);
  }

  /** After the month was paid, and with the given status of its order. */
  function Paying(plan: Plan, status: Status): State {
    Joined().(orders := [FirstMonth().(status := status)],
              events := {(Manual, "manual:" + Decimal.Print(0))},
              tenants := [CUSTOMER.(plan := plan)],
              earnings := map[0 := Earning(0, 0, ShareOf(29000, 30), 0)])
  }

  lemma FirstMonthIsEarned()
    ensures Step(Joined(), At(OpGrant(MONTH), 0), FREE_LIMIT) == Paying(Starter, Paid(FirstPeriod()))
  {
    FirstGrant(Joined(), MONTH, 0);
    Dates.AddMonthsLater(0, 12);
    hide Dates.AddMonths, ShareOf, Decimal.Print, Step;
    var paid := Paying(Starter, Paid(FirstPeriod())).(earnings := map[]);
    assert paid.orders == [FirstMonth()] && Joined().orders + [FirstMonth()] == [FirstMonth()];
    assert Joined().events + {(Manual, "manual:" + Decimal.Print(0))} == paid.events;
    assert Joined().tenants[0 := CUSTOMER.(plan := Starter)] == paid.tenants;
    assert PartnerLink(paid, 0) == Some(0);
    assert FirstPaidAt(paid.orders, 0, 0) == 0;
    assert RewardReferrer(paid, 0, 0) == paid;
    assert RecordEarning(paid, 0, 0) == Paying(Starter, Paid(FirstPeriod()));
  }

  lemma AskedBackIsReached(trace: seq<Event>)
    requires trace == AskedBack()
    ensures Run(EMPTY, trace, FREE_LIMIT)
      == Paying(Starter, RefundRequested(FirstPeriod()))
  {
    hide Step, Dates.AddMonths, ShareOf, Decimal.Print;
    var e3, e4 := At(OpGrant(MONTH), 0), At(OpRequestRefund(0), 0);
    var paid := Paying(Starter, Paid(FirstPeriod()));
    assert trace == trace[..3] + ([e3] + [e4]);
    JoinedIsReached(trace);
    RunConcat(EMPTY, trace[..3], [e3] + [e4]);
    RunCons(Joined(), e3, [e4]);
    FirstMonthIsEarned();
    RunOne(paid, e4);
    RefundIsAsked();
  }

  lemma RefundIsAsked()
    ensures Step(Paying(Starter, Paid(FirstPeriod())), At(OpRequestRefund(0), 0), FREE_LIMIT)
      == Paying(Starter, RefundRequested(FirstPeriod()))
  {
    hide Dates.AddMonths, ShareOf, Decimal.Print;
    var paid := Paying(Starter, Paid(FirstPeriod()));
    assert IsRefundable(paid.orders[0], 0, 0);
    assert LatestRefundable(paid.orders, 0, 0) == Some(0);
  }

  /**
   * A customer that asked for its only payment back keeps the plan through the
   * daily job at any time, also years after its month was over.
   */
  lemma RefundAskedKeepsPlan(trace: seq<Event>, now: int)
    requires trace == AskedBack()
    ensures var s := Run(EMPTY, trace + [At(OpExpire, now)], FREE_LIMIT);
      && |s.tenants| == 1 && s.tenants[0].plan == Starter && IsPlanAt(s.orders, 0, now, Free)
  {
    var s := Paying(Starter, RefundRequested(FirstPeriod()));
    AskedBackIsReached(trace);
    RunConcat(EMPTY, trace, [At(OpExpire, now)]);
    RunOne(s, At(OpExpire, now));
    hide Run;
    ExpiryMeetsPlanExactly(s, 0, 0, now, FREE_LIMIT);
    assert ExpirePaidPlans(s, now, FREE_LIMIT).0.orders == s.orders;
  }

  lemma RefundIsConfirmed()
    ensures Step(Paying(Starter, RefundRequested(FirstPeriod())), At(OpConfirmRefund(0), 0), FREE_LIMIT)
      == Paying(Free, Refunded(Period(0, 0, 0)))
  {
    hide Dates.AddMonths, ShareOf, Decimal.Print;
    var refunded := Paying(Starter, Refunded(Period(0, 0, 0)));
    assert PlanCovering(refunded.orders, 0, 0) == Free;
    assert PauseExcess([], 0, FREE_LIMIT, 0) == [];
  }

  /**
   * The refund is confirmed, and twelve months after its first payment the
   * customer pays again: the partner earns once more, because that first
   * payment was refunded.
   */
  lemma PartnerEarnsAfterItsMonths(trace: seq<Event>)
    requires trace == AskedBack()
    ensures var later := Dates.AddMonths(0, PARTNER.months);
      var s := Run(EMPTY, trace + ([At(OpConfirmRefund(0), 0)] + [At(OpGrant(MONTH), later)]), FREE_LIMIT);
      && |s.orders| == 2 && s.orders[0].tenant == s.orders[1].tenant == 0
      && s.orders[0].status == Refunded(Period(0, 0, 0)) && s.orders[0].provider == Manual
      && 1 in s.earnings && s.earnings[1].partner == 0 && s.partners == [PARTNER]
      && s.earnings[1].createdAt == later
  {
    hide Step, Run, ShareOf, Decimal.Print, Dates.AddMonths, Paying, FirstPeriod, AskedBack;
    var later := Dates.AddMonths(0, 12);
    var asked, confirmed := Paying(Starter, RefundRequested(FirstPeriod())), Paying(Free, Refunded(Period(0, 0, 0)));
    AskedBackIsReached(trace);
    RunConcat(EMPTY, trace, [At(OpConfirmRefund(0), 0)] + [At(OpGrant(MONTH), later)]);
    RunCons(asked, At(OpConfirmRefund(0), 0), [At(OpGrant(MONTH), later)]);
    RefundIsConfirmed();
    RunOne(confirmed, At(OpGrant(MONTH), later));
    SecondMonthIsEarned(confirmed, later);
  }

  lemma SecondMonthIsEarned(s: State, later: int)
    requires s == Paying(Free, Refunded(Period(0, 0, 0))) && later == Dates.AddMonths(0, 12)
    ensures var s' := Step(s, At(OpGrant(MONTH), later), FREE_LIMIT);
      && |s'.orders| == 2 && s'.orders[0].tenant == s'.orders[1].tenant == 0
      && s'.orders[0].status == Refunded(Period(0, 0, 0)) && s'.orders[0].provider == Manual
      && 1 in s'.earnings && s'.earnings[1].partner == 0 && s'.partners == [PARTNER]
      && s'.earnings[1].createdAt == later
  {
    hide Dates.AddMonths, ShareOf, Step;
    KeysDiffer();
    hide Decimal.Print;
    FirstGrant(s, MONTH, later);
    var o := GrantOrder(MONTH).(status := Paid(Period(later, later, Dates.AddMonths(later, 1))));
    var paid := s.(orders := s.orders + [o],
                   events := s.events + {(Manual, "manual:" + Decimal.Print(1))},
                   tenants := s.tenants[0 := s.tenants[0].(plan := Starter)]);
    assert RewardReferrer(paid, 0, later) == paid;
    assert PartnerLink(paid, 0) == Some(0);
    PartnerWindowRestarts(paid, 0, 1, later);
  }

  lemma KeysDiffer()
    ensures "manual:" + Decimal.Print(1) != "manual:" + Decimal.Print(0)
  {
    assert Decimal.DigitOf(Decimal.Print(0)[0]) == 0 && Decimal.DigitOf(Decimal.Print(1)[0]) == 1;
    assert ("manual:" + Decimal.Print(0))[7..] == Decimal.Print(0);
    assert ("manual:" + Decimal.Print(1))[7..] == Decimal.Print(1);
  }

  // ---- A partner's customer with a trial code

  /** Sign-up through the partner's code, then a trial code, then a month paid by hand. */
  function Switched(): seq<Event> {
    [At(OpSignUp, 0),
     At(OpAddPartner("BLOG", PARTNER), 0),
     At(OpAcquire(Acquisition(0, None, Some("BLOG"), {})), 0),
     At(OpAddPromo(TRIAL), 0),
     At(OpRedeemTrial(0, "TRIAL"), 0),
     At(OpGrant(MONTH), 0)]
  }

  function OnTrial(): State {
    Joined().(tenants := [Tenant(Free, TRIAL_END, 0, ViaCode, Some("TRIAL"), None, None, false)],
              promos := [PartnerRow("BLOG", 0), TRIAL])
  }

  lemma OnTrialIsReached(trace: seq<Event>)
    requires trace == Switched()
    ensures Run(EMPTY, trace[..5], FREE_LIMIT) == OnTrial()
  {
    JoinedIsReached(AskedBack());
    var s4 := Joined().(promos := [PartnerRow("BLOG", 0), TRIAL]);
    assert Step(Joined(), trace[3], FREE_LIMIT) == s4;
    assert Step(s4, trace[4], FREE_LIMIT) == OnTrial();
    hide Step;
    assert trace[..5] == AskedBack()[..3] + ([trace[3]] + [trace[4]]);
    RunConcat(EMPTY, AskedBack()[..3], [trace[3]] + [trace[4]]);
    RunCons(Joined(), trace[3], [trace[4]]);
    RunOne(s4, trace[4]);
  }

  /**
   * A customer that came through a partner's code and redeemed a trial code
   * before it first paid earns the partner nothing.
   */
  lemma PartnerLosesItsCustomer(trace: seq<Event>)
    requires trace == Switched()
    ensures var s := Run(EMPTY, trace, FREE_LIMIT);
      && |s.orders| == 1 && PaidBy(s.orders[0], 0) && s.orders[0].amountMinor == 29000
      && s.partners == [PARTNER] && s.earnings == map[]
  {
    hide Dates.AddMonths, Decimal.Print, Step, Run;
    var s := OnTrial();
    OnTrialIsReached(trace);
    assert trace == trace[..5] + [trace[5]];
    RunConcat(EMPTY, trace[..5], [trace[5]]);
    RunOne(s, trace[5]);
    FirstGrant(s, MONTH, 0);
    var paid := s.(orders := s.orders + [FirstMonth()],
                   events := s.events + {(Manual, "manual:" + Decimal.Print(0))},
                   tenants := s.tenants[0 := s.tenants[0].(plan := Starter)]);
    assert RewardReferrer(paid, 0, 0) == paid;
    assert PartnerLink(paid, 0) == None;
    assert RecordEarning(paid, 0, 0) == paid;
  }

  // ---- A customer that has just paid

  const TRIAL := Promo("TRIAL", false, 0, None, Some(28), None, None, None, None, None, 0, None, None)
  const TRIAL_END := 28 * DAY_MS
  const PRO := Checkout(0, Pro, 1, RUB, 0, None)

  /** A tenant redeems a trial code and invites a friend, who pays; then it orders Pro. */
  function Invited(): seq<Event> {
    [At(OpSignUp, 0),
     At(OpAddPromo(TRIAL), 0),
     At(OpRedeemTrial(0, "TRIAL"), 0),
     At(OpReferralCode(0, ["FRIEND"]), 0),
     At(OpSignUp, 0),
     At(OpAcquire(Acquisition(1, Some("FRIEND"), None, {})), 0),
     At(OpGrant(Grant(1, Starter, 1, 29000, RUB, false)), 0),
     At(OpCheckout(PRO), 0)]
  }

  const PAYMENT := Notification(Yookassa, "1:succeeded", 2, true, 79000)

  const INVITER := Tenant(Free, TRIAL_END, 0, ViaCode, Some("TRIAL"), Some("FRIEND"), None, false)
  const FRIEND := Tenant(Free, REFERRAL_TRIAL_MS, 0, ViaReferral, None, None, None, false)

  function Friends(): State {
    EMPTY.(tenants := [INVITER, FRIEND], promos := [TRIAL], referrals := [ReferralRow(0, 1, false)])
  }

  lemma FriendsAreReached(trace: seq<Event>)
    requires trace == Invited()
    ensures Run(EMPTY, trace[..6], FREE_LIMIT) == Friends()
  {
    var trial := INVITER.(referralCode := None);
    var s1 := EMPTY.(tenants := [NEW_TENANT]);
    var s2 := s1.(promos := [TRIAL]);
    var s3 := s2.(tenants := [trial]);
    var s4 := s2.(tenants := [INVITER]);
    var s5 := s2.(tenants := [INVITER, NEW_TENANT]);
    assert Step(EMPTY, trace[0], FREE_LIMIT) == s1;
    assert Step(s1, trace[1], FREE_LIMIT) == s2;
    assert Step(s2, trace[2], FREE_LIMIT) == s3;
    assert Step(s3, trace[3], FREE_LIMIT) == s4;
    assert Step(s4, trace[4], FREE_LIMIT) == s5;
    assert Step(s5, trace[5], FREE_LIMIT) == Friends() by { FriendArrives(s5); }
    hide Step;
    assert trace[..6] == trace[..3] + trace[3..6];
    RunThree(EMPTY, s1, s2, s3, trace[..3]);
    RunThree(s3, s4, s5, Friends(), trace[3..6]);
    RunConcat(EMPTY, trace[..3], trace[3..6]);
  }

  lemma FriendArrives(s: State)
    requires s == EMPTY.(tenants := [INVITER, NEW_TENANT], promos := [TRIAL])
    ensures Step(s, At(OpAcquire(Acquisition(1, Some("FRIEND"), None, {})), 0), FREE_LIMIT) == Friends()
  {
    assert s.tenants[..1] == [INVITER];
    assert FindReferrer(s.tenants, Some("FRIEND")) == Some(0);
  }

  function FreeMonth(): Order {
    Order(0, Starter, 1, 0, RUB, false, None, Referral,
          Paid(Period(0, TRIAL_END, Dates.AddMonths(TRIAL_END, 1))))
  }

  function FriendMonth(): Order {
    GrantOrder(Grant(1, Starter, 1, 29000, RUB, false)).(status := Paid(Period(0, 0, Dates.AddMonths(0, 1))))
  }

  function Rewarded(orders: seq<Order>): State {
    State([INVITER, FRIEND.(plan := Starter)], orders, {(Manual, "manual:" + Decimal.Print(0))},
          [ReferralRow(0, 1, true)], [TRIAL], [], map[], [])
  }

  lemma FriendPays()
    ensures Step(Friends(), At(OpGrant(Grant(1, Starter, 1, 29000, RUB, false)), 0), FREE_LIMIT)
      == Rewarded([FriendMonth(), FreeMonth()])
  {
    var g := Grant(1, Starter, 1, 29000, RUB, false);
    FirstGrant(Friends(), g, 0);
    hide Dates.AddMonths, Step, Decimal.Print;
    var paid := Rewarded([FriendMonth()]).(referrals := [ReferralRow(0, 1, false)]);
    assert Friends().orders + [FriendMonth()] == [FriendMonth()];
    assert Friends().events + {(Manual, "manual:" + Decimal.Print(0))} == paid.events;
    assert Friends().tenants[1 := FRIEND.(plan := Starter)] == paid.tenants;
    assert PendingReferral(paid.referrals, 1) == Some(0);
    assert CountRewards(paid.orders, 0) == 0;
    assert LatestPaid(paid.orders, 0, 0) == None;
    var rewarded := Rewarded([FriendMonth(), FreeMonth()]);
    assert paid.orders + [FreeMonth()] == rewarded.orders;
    assert RewardReferrer(paid, 1, 0) == rewarded;
    assert RecordEarning(rewarded, 0, 0) == rewarded;
  }

  function ProOrder(): Order {
    Order(0, Pro, 1, 79000, RUB, false, None, Yookassa, Created)
  }

  lemma ProIsOrdered()
    ensures Step(Rewarded([FriendMonth(), FreeMonth()]), At(OpCheckout(PRO), 0), FREE_LIMIT)
      == Rewarded([FriendMonth(), FreeMonth(), ProOrder()])
  {
    hide Dates.AddMonths, Decimal.Print;
    var s := Rewarded([FriendMonth(), FreeMonth()]);
    var use := PromoUse(0, Pro, 1, 0);
    assert !IsUsable(TRIAL, use);
    assert UsableOne(s.promos, Some("TRIAL"), use) == [];
    assert UsableCampaigns(s.promos, 1, use) == [];
    assert UsableOne(s.promos, None, use) == [];
    assert s.tenants[0].acquiredCode == Some("TRIAL") && |s.promos| == 1;
    assert UsableDiscounts(s, PRO, 0) == Ok([] + [] + []);
    assert !IsEarlyEligible(s.orders, 0, 0);
    assert s.orders + [ProOrder()] == [FriendMonth(), FreeMonth(), ProOrder()];
  }

  lemma ProOrderIsReached(trace: seq<Event>)
    requires trace == Invited()
    ensures Run(EMPTY, trace, FREE_LIMIT) == Rewarded([FriendMonth(), FreeMonth(), ProOrder()])
  {
    hide Step;
    var e6, e7 := trace[6], trace[7];
    assert trace == trace[..6] + ([e6] + [e7]);
    FriendsAreReached(trace);
    RunConcat(EMPTY, trace[..6], [e6] + [e7]);
    RunCons(Friends(), e6, [e7]);
    FriendPays();
    RunOne(Rewarded([FriendMonth(), FreeMonth()]), e7);
    ProIsOrdered();
  }

  /**
   * A customer that has just paid for Pro gets it at once and loses it to the
   * next daily job: the free month it earned is queued behind its trial, the
   * month of Pro behind the free month, and nothing covers today.
   */
  lemma PaidYetFree(trace: seq<Event>)
    requires trace == Invited()
    ensures var paid := Run(EMPTY, trace + [At(OpNotify(PAYMENT), 0)], FREE_LIMIT);
      && |paid.tenants| == 2 && paid.tenants[0].plan == Pro
      && |paid.orders| >= 3 && PaidBy(paid.orders[2], 0) && paid.orders[2].plan == Pro
    ensures var expired := Run(EMPTY, trace + ([At(OpNotify(PAYMENT), 0)] + [At(OpExpire, 0)]), FREE_LIMIT);
      |expired.tenants| == 2 && expired.tenants[0].plan == Free
  {
    hide Valid, Step, Run, ApplyNotification, ExpirePaidPlans, PlanCovering, LatestPaid, Decimal.Print, Dates.AddMonths;
    var s := Rewarded([FriendMonth(), FreeMonth(), ProOrder()]);
    var pay, expire := At(OpNotify(PAYMENT), 0), At(OpExpire, 0);
    ProOrderIsReached(trace);
    ReachableIsValid(trace, FREE_LIMIT);
    FreeMonthIsQueued(s.orders);
    PaymentApplies(s);
    PaidThenExpired(s, PAYMENT, 0, FREE_LIMIT);
    StepsOf(s);
    RunConcat(EMPTY, trace, [pay]);
    RunConcat(EMPTY, trace, [pay] + [expire]);
    RunOne(s, pay);
    RunCons(s, pay, [expire]);
    RunOne(Step(s, pay, FREE_LIMIT), expire);
  }

  lemma StepsOf(s: State)
    ensures Step(s, At(OpNotify(PAYMENT), 0), FREE_LIMIT) == ApplyNotification(s, PAYMENT, 0).0
    ensures forall s' :: Step(s', At(OpExpire, 0), FREE_LIMIT) == ExpirePaidPlans(s', 0, FREE_LIMIT).0
  {
  }

  lemma FreeMonthIsQueued(orders: seq<Order>)
    requires orders == [FriendMonth(), FreeMonth(), ProOrder()]
    ensures LatestPaid(orders, 0, 0).Some? && PlanCovering(orders, 0, 0) == Free
  {
    Dates.AddMonthsLater(TRIAL_END, 1);
    hide Dates.AddMonths, LatestPaid, CoveringOrder;
    assert PaidBy(orders[1], 0) && orders[1].status.period.end > 0;
    assert forall i :: 0 <= i < |orders| ==> !Covers(orders[i], 0, 0);
  }

  lemma PaymentApplies(s: State)
    requires s == Rewarded([FriendMonth(), FreeMonth(), ProOrder()])
    ensures ApplyNotification(s, PAYMENT, 0).1 == Applied
  {
    hide Settle, Decimal.Print;
  }
}
