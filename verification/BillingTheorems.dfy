/** What the billing code promises, over every run. */
module BillingTheorems {
  import opened Wrappers
  import opened Billing
  import opened BillingInvariants
  import opened BillingRuns
  import Dates
  import Decimal
  import Money

  // ---- Paid time

  /**
   * In every reachable state a tenant's paid periods are non-empty and
   * disjoint, so at most one covers an instant and which was paid last never
   * decides the plan.
   */
  lemma PaidTimeIsDisjoint(trace: seq<Event>, freeLimit: nat, tenant: nat, now: int, i: nat)
    requires var orders := Run(EMPTY, trace, freeLimit).orders;
      i < |orders| && PaidBy(orders[i], tenant)
    ensures var orders := Run(EMPTY, trace, freeLimit).orders;
      && orders[i].status.period.start < orders[i].status.period.end
      && (forall j :: 0 <= j < |orders| && j != i && PaidBy(orders[j], tenant) ==>
            || orders[i].status.period.end <= orders[j].status.period.start
            || orders[j].status.period.end <= orders[i].status.period.start)
      && (Covers(orders[i], tenant, now) ==>
            CoveringOrder(orders, tenant, now) == Some(i)
            && PlanCovering(orders, tenant, now) == orders[i].plan)
  {
    hide Run;
    ReachableIsValid(trace, freeLimit);
    var orders := Run(EMPTY, trace, freeLimit).orders;
    if Covers(orders[i], tenant, now) {
      CoveringIsUnique(orders, tenant, now, i);
    }
    forall j | 0 <= j < |orders| && j != i && PaidBy(orders[j], tenant)
      ensures orders[i].status.period.end <= orders[j].status.period.start
        || orders[j].status.period.end <= orders[i].status.period.start
    {
      assert Apart(orders[i], orders[j]);
    }
  }

  lemma CoveringIsUnique(orders: seq<Order>, tenant: nat, now: int, i: nat)
    requires PeriodsOk(orders) && i < |orders| && Covers(orders[i], tenant, now)
    ensures CoveringOrder(orders, tenant, now) == Some(i)
  {
    hide CoveringOrder;
    var found := CoveringOrder(orders, tenant, now);
    assert found.Some? && Covers(orders[found.value], tenant, now);
  }

  /** No instant between two pieces of the tenant's paid time is left uncovered. */
  ghost predicate Tiled(orders: seq<Order>, tenant: nat) {
    forall i, j, x ::
      (&& 0 <= i < |orders| && 0 <= j < |orders|
       && PaidBy(orders[i], tenant) && PaidBy(orders[j], tenant)
       && orders[i].status.period.start <= x < orders[j].status.period.end) ==> IsCovered(orders, tenant, x)
  }

  ghost predicate IsCovered(orders: seq<Order>, tenant: nat, x: int) {
    exists k :: 0 <= k < |orders| && Covers(orders[k], tenant, x)
  }

  /** The tenant's paid rows are the same before and after. */
  ghost predicate SamePaid(orders: seq<Order>, orders': seq<Order>, tenant: nat) {
    && |orders| <= |orders'|
    && (forall i :: 0 <= i < |orders| ==>
          (PaidBy(orders[i], tenant) <==> PaidBy(orders'[i], tenant))
          && (PaidBy(orders[i], tenant) ==> orders'[i].status == orders[i].status))
    && (forall i :: |orders| <= i < |orders'| ==> !PaidBy(orders'[i], tenant))
  }

  /** Exactly one paid row is new, and it starts where the tenant's paid time ended. */
  ghost predicate ExtendsPaid(orders: seq<Order>, orders': seq<Order>, tenant: nat, now: int, id: nat) {
    && |orders| <= |orders'| && id < |orders'|
    && (id < |orders| ==> !PaidBy(orders[id], tenant))
    && StartsAfterAll(orders, orders'[id]) && orders'[id].tenant == tenant
    && (LatestPaid(orders, tenant, now).Some? ==>
          orders'[id].status.period.start == orders[LatestPaid(orders, tenant, now).value].status.period.end)
    && (forall i :: 0 <= i < |orders| && i != id ==>
          (PaidBy(orders[i], tenant) <==> PaidBy(orders'[i], tenant))
          && (PaidBy(orders[i], tenant) ==> orders'[i].status == orders[i].status))
    && (forall i :: |orders| <= i < |orders'| && i != id ==> !PaidBy(orders'[i], tenant))
  }

  ghost predicate PaidTimeStep(orders: seq<Order>, orders': seq<Order>, tenant: nat, now: int) {
    SamePaid(orders, orders', tenant) || exists id :: ExtendsPaid(orders, orders', tenant, now, id)
  }

  lemma PayOrderExtends(s: State, id: nat, tenant: nat, now: int)
    requires Valid(s) && id < |s.orders| && s.orders[id].status == Created
    ensures var orders' := PayOrder(s, id, now).orders;
      if tenant == s.orders[id].tenant then ExtendsPaid(s.orders, orders', tenant, now, id)
      else SamePaid(s.orders, orders', tenant)
  {
    hide Valid, Dates.AddMonths, LatestPaid;
    var o := s.orders[id];
    Dates.AddMonthsLater(PaidUntil(s.orders, o.tenant, now), o.months);
    PaidUntilAfterAll(s.orders, o.tenant, now);
  }

  lemma RewardExtends(s: State, referred: nat, tenant: nat, now: int)
    requires Valid(s)
    ensures var orders' := RewardReferrer(s, referred, now).orders;
      && (SamePaid(s.orders, orders', tenant) || ExtendsPaid(s.orders, orders', tenant, now, |s.orders|))
      && (tenant == referred ==> SamePaid(s.orders, orders', tenant))
  {
    hide Dates.AddMonths, LatestPaid, CountRewards;
    var row := PendingReferral(s.referrals, referred);
    if row.Some? {
      var referrer := s.referrals[row.value].referrer;
      var reward := RewardOrder(s.orders, s.tenants[referrer], referrer, now);
      Dates.AddMonthsLater(reward.status.period.start, 1);
    }
  }

  lemma SamePaidThen(a: seq<Order>, b: seq<Order>, c: seq<Order>, tenant: nat, now: int, id: nat)
    requires SamePaid(a, b, tenant)
    ensures SamePaid(b, c, tenant) ==> SamePaid(a, c, tenant)
    ensures ExtendsPaid(b, c, tenant, now, id) && (id < |a| || id >= |b| || !PaidBy(b[id], tenant)) ==>
      ExtendsPaid(a, c, tenant, now, id)
  {
    SameLatest(a, b, tenant, now);
    if ExtendsPaid(b, c, tenant, now, id) {
      forall i | 0 <= i < |a| && PaidBy(a[i], tenant)
        ensures a[i].status.period.end <= c[id].status.period.start
      {
        assert PaidBy(b[i], tenant) && b[i].status == a[i].status;
      }
    }
  }

  lemma {:induction false} SameLatest(a: seq<Order>, b: seq<Order>, tenant: nat, now: int)
    requires SamePaid(a, b, tenant)
    ensures LatestPaid(a, tenant, now) == LatestPaid(b, tenant, now)
    decreases |b|
  {
    if |b| > |a| {
      assert b[..|b| - 1][..|a|] == b[..|a|];
      SameLatest(a, b[..|b| - 1], tenant, now);
    } else if a != [] {
      SameLatest(a[..|a| - 1], b[..|b| - 1], tenant, now);
    }
  }

  lemma ExtendsThenSame(a: seq<Order>, b: seq<Order>, c: seq<Order>, tenant: nat, now: int, id: nat)
    requires ExtendsPaid(a, b, tenant, now, id) && SamePaid(b, c, tenant)
    requires c[id].tenant == b[id].tenant
    ensures ExtendsPaid(a, c, tenant, now, id)
  {
    hide LatestPaid;
  }

  lemma SettleExtends(s: State, id: nat, tenant: nat, now: int)
    requires Valid(s) && id < |s.orders| && s.orders[id].status == Created
    ensures PaidTimeStep(s.orders, Settle(s, id, now).orders, tenant, now)
  {
    var paid := PayOrder(s, id, now);
    var payer := s.orders[id].tenant;
    var rewarded := RewardReferrer(paid, payer, now);
    assert Settle(s, id, now).orders == rewarded.orders by { RewardKeepsOrders(paid, payer, now); }
    KeepsOnPayOrder(s, id, now);
    PayOrderExtends(s, id, tenant, now);
    RewardExtends(paid, payer, tenant, now);
    RewardKeepsOrders(paid, payer, now);
    if tenant == payer {
      ExtendsThenSame(s.orders, paid.orders, rewarded.orders, tenant, now, id);
    } else {
      SamePaidThen(s.orders, paid.orders, rewarded.orders, tenant, now, |paid.orders|);
    }
  }

  lemma NotificationExtends(s: State, n: Notification, tenant: nat, now: int)
    requires Valid(s)
    ensures PaidTimeStep(s.orders, ApplyNotification(s, n, now).0.orders, tenant, now)
  {
    hide Settle;
    var s1 := s.(events := s.events + {(n.provider, n.eventKey)});
    if ApplyNotification(s, n, now).1 == Applied {
      SettleExtends(s1, n.orderId, tenant, now);
    }
  }

  lemma GrantExtends(s: State, g: Grant, tenant: nat, now: int)
    requires Valid(s)
    ensures PaidTimeStep(s.orders, GrantManualPayment(s, g, now).0.orders, tenant, now)
  {
    hide Valid, ApplyNotification;
    if g.tenant < |s.tenants| {
      var inserted := s.(orders := s.orders + [GrantOrder(g)]);
      var s' := GrantManualPayment(s, g, now).0;
      KeepsOnNewOrder(s, GrantOrder(g));
      NotificationExtends(inserted, GrantNotification(g, |s.orders|), tenant, now);
      assert SamePaid(s.orders, inserted.orders, tenant);
      if SamePaid(inserted.orders, s'.orders, tenant) {
        SamePaidThen(s.orders, inserted.orders, s'.orders, tenant, now, 0);
      } else {
        var id :| ExtendsPaid(inserted.orders, s'.orders, tenant, now, id);
        SamePaidThen(s.orders, inserted.orders, s'.orders, tenant, now, id);
      }
    }
  }

  /**
   * Apart from asking for a refund, an operation leaves a tenant's paid rows
   * alone or adds one, which begins where the paid time ended if any was left.
   */
  lemma PaidTimeGrowsAtEnd(s: State, e: Event, tenant: nat, freeLimit: nat)
    requires Valid(s) && e.op != OpRequestRefund(tenant)
    ensures PaidTimeStep(s.orders, Step(s, e, freeLimit).orders, tenant, e.now)
  {
    hide Valid, ApplyNotification, GrantManualPayment, PlanCovering, PauseExcess;
    match e.op {
      case OpNotify(n) => NotificationExtends(s, n, tenant, e.now);
      case OpGrant(g) => GrantExtends(s, g, tenant, e.now);
      case OpReferralCode(t, draws) => CodeKeepsOrders(s, t, draws);
      case _ =>
    }
  }

  lemma {:induction false} CodeKeepsOrders(s: State, tenant: nat, draws: seq<string>)
    ensures ReferralCodeFor(s, tenant, draws).0.orders == s.orders
    decreases |draws|
  {
    if draws != [] {
      CodeKeepsOrders(s, tenant, draws[1..]);
    }
  }

  ghost predicate HasPaidTime(orders: seq<Order>, tenant: nat) {
    exists i :: 0 <= i < |orders| && PaidBy(orders[i], tenant)
  }

  /** No refund is asked for, and paid time is only ever added before the current paid time has run out. */
  ghost predicate PaysOnTime(s: State, trace: seq<Event>, tenant: nat, freeLimit: nat)
    decreases |trace|
  {
    trace == [] ||
    var next := Step(s, trace[0], freeLimit);
    && trace[0].op != OpRequestRefund(tenant)
    && (|| SamePaid(s.orders, next.orders, tenant)
        || !HasPaidTime(s.orders, tenant)
        || LatestPaid(s.orders, tenant, trace[0].now).Some?)
    && PaysOnTime(next, trace[1..], tenant, freeLimit)
  }

  lemma TiledAfterExtension(orders: seq<Order>, orders': seq<Order>, tenant: nat, now: int, id: nat)
    requires Tiled(orders, tenant) && ExtendsPaid(orders, orders', tenant, now, id)
    requires !HasPaidTime(orders, tenant) || LatestPaid(orders, tenant, now).Some?
    ensures Tiled(orders', tenant)
  {
    hide LatestPaid;
    var latest := LatestPaid(orders, tenant, now);
    forall i, j, x | 0 <= i < |orders'| && 0 <= j < |orders'|
      && PaidBy(orders'[i], tenant) && PaidBy(orders'[j], tenant)
      && orders'[i].status.period.start <= x < orders'[j].status.period.end
      ensures IsCovered(orders', tenant, x)
    {
      if x >= orders'[id].status.period.start {
        assert Covers(orders'[id], tenant, x);
      } else {
        assert i != id;
        assert PaidBy(orders[i], tenant);
        assert orders[latest.value].status.period.end > x;
        assert IsCovered(orders, tenant, x);
        var k :| 0 <= k < |orders| && Covers(orders[k], tenant, x);
        assert Covers(orders'[k], tenant, x);
      }
    }
  }

  lemma TiledAfterNothing(orders: seq<Order>, orders': seq<Order>, tenant: nat)
    requires Tiled(orders, tenant) && SamePaid(orders, orders', tenant)
    ensures Tiled(orders', tenant)
  {
    forall i, j, x | 0 <= i < |orders'| && 0 <= j < |orders'|
      && PaidBy(orders'[i], tenant) && PaidBy(orders'[j], tenant)
      && orders'[i].status.period.start <= x < orders'[j].status.period.end
      ensures IsCovered(orders', tenant, x)
    {
      assert PaidBy(orders[i], tenant) && PaidBy(orders[j], tenant);
      assert IsCovered(orders, tenant, x);
      var k :| 0 <= k < |orders| && Covers(orders[k], tenant, x);
      assert Covers(orders'[k], tenant, x);
    }
  }

  /** A tenant that pays in time and asks for nothing back has no gap in its paid time. */
  lemma {:induction false} PaidTimeTiles(s: State, trace: seq<Event>, tenant: nat, freeLimit: nat)
    requires Valid(s) && Tiled(s.orders, tenant) && PaysOnTime(s, trace, tenant, freeLimit)
    ensures Tiled(Run(s, trace, freeLimit).orders, tenant)
    decreases |trace|
  {
    hide Valid, Step, Tiled, SamePaid, ExtendsPaid, HasPaidTime, LatestPaid;
    if trace != [] {
      var next := Step(s, trace[0], freeLimit);
      StepKeeps(s, trace[0], freeLimit);
      PaidTimeGrowsAtEnd(s, trace[0], tenant, freeLimit);
      if SamePaid(s.orders, next.orders, tenant) {
        TiledAfterNothing(s.orders, next.orders, tenant);
      } else {
        var id :| ExtendsPaid(s.orders, next.orders, tenant, trace[0].now, id);
        TiledAfterExtension(s.orders, next.orders, tenant, trace[0].now, id);
      }
      PaidTimeTiles(next, trace[1..], tenant, freeLimit);
    }
  }

  // ---- Notifications

  /** The trace without notifications whose (provider, key) was delivered before. */
  function DropRetries(trace: seq<Event>, seen: set<(Provider, string)>): seq<Event> {
    if trace == [] then []
    else if trace[0].op.OpNotify? then
      var key := (trace[0].op.notification.provider, trace[0].op.notification.eventKey);
      if key in seen then DropRetries(trace[1..], seen)
      else [trace[0]] + DropRetries(trace[1..], seen + {key})
    else [trace[0]] + DropRetries(trace[1..], seen)
  }

  /**
   * Retries change nothing: any run, with anything happening in between, ends
   * where the run with only the first delivery of each key ends.
   */
  lemma {:induction false} RetriesAreNoOps(
    s: State, trace: seq<Event>, seen: set<(Provider, string)>, freeLimit: nat)
    requires Valid(s) && seen <= s.events
    ensures Run(s, trace, freeLimit) == Run(s, DropRetries(trace, seen), freeLimit)
    decreases |trace|
  {
    hide Valid, Step;
    if trace != [] {
      var e := trace[0];
      var next := Step(s, e, freeLimit);
      StepKeeps(s, e, freeLimit);
      FollowsEvents(s, next);
      if e.op.OpNotify? {
        var key := (e.op.notification.provider, e.op.notification.eventKey);
        NotifyRecords(s, e, freeLimit);
        if key in seen {
          RetriesAreNoOps(s, trace[1..], seen, freeLimit);
        } else {
          RetriesAreNoOps(next, trace[1..], seen + {key}, freeLimit);
          assert DropRetries(trace, seen)[1..] == DropRetries(trace[1..], seen + {key});
        }
      } else {
        RetriesAreNoOps(next, trace[1..], seen, freeLimit);
        assert DropRetries(trace, seen)[1..] == DropRetries(trace[1..], seen);
      }
    }
  }

  lemma FollowsEvents(s: State, s': State)
    requires Follows(s, s')
    ensures s.events <= s'.events
  {
  }

  lemma NotifyRecords(s: State, e: Event, freeLimit: nat)
    requires Valid(s) && e.op.OpNotify?
    ensures var key := (e.op.notification.provider, e.op.notification.eventKey);
      && key in Step(s, e, freeLimit).events
      && (key in s.events ==> Step(s, e, freeLimit) == s)
  {
    hide Valid, Settle, Follows;
    var n := e.op.notification;
    var s1 := s.(events := s.events + {(n.provider, n.eventKey)});
    if ApplyNotification(s, n, e.now).1 == Applied {
      assert Valid(s1) by { EventsKeep(s, s1.events); }
      KeepsOnSettle(s1, n.orderId, e.now);
      FollowsEvents(s1, Settle(s1, n.orderId, e.now));
    }
  }

  lemma EventsKeep(s: State, events: set<(Provider, string)>)
    requires Valid(s)
    ensures Valid(s.(events := events))
  {
  }

  /**
   * An order leaves "created" only through its own notification, under a key
   * not seen before: refused, it fails; paid, the amount was exactly the
   * order's, and the row records when and for which time.
   */
  lemma PaidOnlyByMatchingPayment(s: State, e: Event, id: nat, freeLimit: nat)
    requires Valid(s) && id < |s.orders| && s.orders[id].status == Created
    ensures id < |Step(s, e, freeLimit).orders|
    ensures Step(s, e, freeLimit).orders[id].status != Created ==>
      && e.op.OpNotify?
      && var n, o := e.op.notification, s.orders[id];
      && n.orderId == id && (n.provider, n.eventKey) !in s.events
      && Step(s, e, freeLimit).orders[id].status == (
          if !n.isPaid then Failed
          else
            var start := PaidUntil(s.orders, o.tenant, e.now);
            Paid(Period(e.now, start, Dates.AddMonths(start, o.months))))
      && (n.isPaid ==> n.paidAmountMinor == o.amountMinor)
  {
    hide Valid, Settle, PlanCovering, PauseExcess, PaidUntil, Dates.AddMonths;
    match e.op {
      case OpNotify(n) => PaidByNotification(s, n, id, e.now);
      case OpGrant(g) =>
        if g.tenant < |s.tenants| {
          var inserted := s.(orders := s.orders + [GrantOrder(g)]);
          KeepsOnNewOrder(s, GrantOrder(g));
          PaidByNotification(inserted, GrantNotification(g, |s.orders|), id, e.now);
        }
      case OpReferralCode(t, draws) => CodeKeepsOrders(s, t, draws);
      case _ =>
    }
  }

  lemma PaidByNotification(s: State, n: Notification, id: nat, now: int)
    requires Valid(s) && id < |s.orders| && s.orders[id].status == Created
    ensures id < |ApplyNotification(s, n, now).0.orders|
    ensures var o, o' := s.orders[id], ApplyNotification(s, n, now).0.orders[id];
      var start := PaidUntil(s.orders, o.tenant, now);
      if (n.provider, n.eventKey) in s.events || n.orderId != id || (n.isPaid && n.paidAmountMinor != o.amountMinor)
      then o' == o
      else o' == o.(status := if n.isPaid then Paid(Period(now, start, Dates.AddMonths(start, o.months))) else Failed)
  {
    hide Valid, PaidUntil, Dates.AddMonths, CountPromoUse, RecordEarning, SetPlan, RewardReferrer;
    var s1 := s.(events := s.events + {(n.provider, n.eventKey)});
    if ApplyNotification(s, n, now).1 == Applied {
      EarningKeepsOrders(s1, n.orderId, now);
      RewardKeepsOrders(PayOrder(s1, n.orderId, now), s.orders[n.orderId].tenant, now);
    }
  }

  lemma EarningKeepsOrders(s: State, id: nat, now: int)
    requires id < |s.orders|
    ensures Settle(s, id, now).orders
      == RewardReferrer(PayOrder(s, id, now), s.orders[id].tenant, now).orders
  {
    hide RewardReferrer, FirstPaidAt, PartnerLink, Dates.AddMonths, CountPromoUse, SetPlan, MarkPaid;
    RewardKeepsOrders(PayOrder(s, id, now), s.orders[id].tenant, now);
  }

  /** Once paid, an order keeps its amount, its payment time and the start of its period through any run. */
  lemma PaidOnce(s: State, trace: seq<Event>, id: nat, freeLimit: nat)
    requires Valid(s) && id < |s.orders| && s.orders[id].status.EverPaid()
    ensures id < |Run(s, trace, freeLimit).orders|
    ensures var o, o' := s.orders[id], Run(s, trace, freeLimit).orders[id];
      && o' == o.(status := o'.status) && o'.status.EverPaid()
      && o'.status.period == o.status.period.(end := o'.status.period.end)
      && (o'.status.Paid? ==> o.status == o'.status)
  {
    hide Run;
    RunKeeps(s, trace, freeLimit);
    assert OrderFollows(s.orders[id], Run(s, trace, freeLimit).orders[id]);
  }

  /** A notification touches one created order; other rows stay and new rows are created or paid ones. */
  lemma NotificationKeepsOthers(s: State, n: Notification, now: int)
    requires Valid(s)
    ensures var orders' := ApplyNotification(s, n, now).0.orders;
      && |s.orders| <= |orders'|
      && (forall i :: 0 <= i < |s.orders| && s.orders[i].status != Created ==> orders'[i] == s.orders[i])
      && (forall i :: |s.orders| <= i < |orders'| ==> orders'[i].status.Created? || orders'[i].status.Paid?)
  {
    hide Valid, PaidUntil, Dates.AddMonths, CountPromoUse, RecordEarning, SetPlan, LatestPaid, CountRewards;
    var s1 := s.(events := s.events + {(n.provider, n.eventKey)});
    if ApplyNotification(s, n, now).1 == Applied {
      var paid := PayOrder(s1, n.orderId, now);
      EarningKeepsOrders(s1, n.orderId, now);
      RewardKeepsOrders(paid, s.orders[n.orderId].tenant, now);
    }
  }

  /** How one order's status may change in one operation, and by which one. */
  predicate StatusStep(o: Order, o': Order, e: Event, id: nat) {
    && o' == o.(status := o'.status)
    && (|| o' == o
        || (o.status.Created? && (o'.status.Failed? || (o'.status.Paid? && o'.status.period.paidAt == e.now)))
        || (o.status.Paid? && o'.status == RefundRequested(o.status.period) && e.op == OpRequestRefund(o.tenant))
        || (&& o.status.RefundRequested? && e.op == OpConfirmRefund(id)
            && o'.status == Refunded(o.status.period.(end := e.now))))
  }

  /**
   * In one operation a created order fails or is paid; a paid order changes
   * only when its tenant asks for a refund, and an order asked back only when
   * that refund is confirmed; failed and refunded ones never change.
   */
  lemma StatusMovesOneStep(s: State, e: Event, id: nat, freeLimit: nat)
    requires Valid(s)
    ensures |s.orders| <= |Step(s, e, freeLimit).orders|
    ensures id < |s.orders| ==> StatusStep(s.orders[id], Step(s, e, freeLimit).orders[id], e, id)
    ensures |s.orders| <= id < |Step(s, e, freeLimit).orders| ==>
      Step(s, e, freeLimit).orders[id].status.Created? || Step(s, e, freeLimit).orders[id].status.Paid?
  {
    hide Valid, ApplyNotification, PlanCovering, PauseExcess, Dates.AddMonths, PaidUntil;
    if id < |s.orders| && s.orders[id].status == Created {
      PaidOnlyByMatchingPayment(s, e, id, freeLimit);
      StepKeeps(s, e, freeLimit);
      assert OrderFollows(s.orders[id], Step(s, e, freeLimit).orders[id]);
    }
    match e.op {
      case OpNotify(n) => NotificationKeepsOthers(s, n, e.now);
      case OpGrant(g) =>
        if g.tenant < |s.tenants| {
          KeepsOnNewOrder(s, GrantOrder(g));
          NotificationKeepsOthers(
            s.(orders := s.orders + [GrantOrder(g)]), GrantNotification(g, |s.orders|), e.now);
          GrantedIsPaidOrCreated(s, g, e.now);
        }
      case OpReferralCode(t, draws) => CodeKeepsOrders(s, t, draws);
      case _ =>
    }
  }

  lemma GrantedIsPaidOrCreated(s: State, g: Grant, now: int)
    requires Valid(s) && g.tenant < |s.tenants|
    ensures var orders' := GrantManualPayment(s, g, now).0.orders;
      |s.orders| < |orders'| && (orders'[|s.orders|].status.Created? || orders'[|s.orders|].status.Paid?)
  {
    hide Valid, ApplyNotification, Dates.AddMonths, PaidUntil;
    KeepsOnNewOrder(s, GrantOrder(g));
    PaidByNotification(
      s.(orders := s.orders + [GrantOrder(g)]), GrantNotification(g, |s.orders|), |s.orders|, now);
  }

  ghost predicate HasOp(trace: seq<Event>, op: Op) {
    exists i :: 0 <= i < |trace| && trace[i].op == op
  }

  /** Somewhere in the trace the refund is asked for, and later confirmed. */
  ghost predicate AskedThenConfirmed(trace: seq<Event>, tenant: nat, id: nat) {
    exists i :: 0 <= i < |trace| && trace[i].op == OpRequestRefund(tenant)
      && HasOp(trace[i + 1..], OpConfirmRefund(id))
  }

  lemma HasOpLater(trace: seq<Event>, op: Op)
    requires trace != [] && HasOp(trace[1..], op)
    ensures HasOp(trace, op)
  {
    var i :| 0 <= i < |trace[1..]| && trace[1..][i].op == op;
    assert trace[i + 1].op == op;
  }

  lemma AskedThenConfirmedLater(trace: seq<Event>, tenant: nat, id: nat)
    requires trace != [] && AskedThenConfirmed(trace[1..], tenant, id)
    ensures AskedThenConfirmed(trace, tenant, id)
  {
    var i :| 0 <= i < |trace[1..]| && trace[1..][i].op == OpRequestRefund(tenant)
      && HasOp(trace[1..][i + 1..], OpConfirmRefund(id));
    assert trace[1..][i + 1..] == trace[i + 1..][1..];
    assert trace[i + 1..][1..] == trace[i + 2..];
    assert trace[i + 1].op == OpRequestRefund(tenant);
  }

  lemma {:induction false} RefundPath(s: State, trace: seq<Event>, id: nat, freeLimit: nat)
    requires Valid(s)
    requires id < |Run(s, trace, freeLimit).orders| && Run(s, trace, freeLimit).orders[id].status.Refunded?
    ensures id < |s.orders| && s.orders[id].status.RefundRequested? ==> HasOp(trace, OpConfirmRefund(id))
    ensures !(id < |s.orders| && (s.orders[id].status.RefundRequested? || s.orders[id].status.Refunded?)) ==>
      AskedThenConfirmed(trace, Run(s, trace, freeLimit).orders[id].tenant, id)
    decreases |trace|
  {
    hide Valid, Follows, Step, HasOp, AskedThenConfirmed;
    if trace != [] {
      var next := Step(s, trace[0], freeLimit);
      StepKeeps(s, trace[0], freeLimit);
      StatusMovesOneStep(s, trace[0], id, freeLimit);
      RefundPath(next, trace[1..], id, freeLimit);
      if id < |next.orders| {
        TenantStays(next, trace[1..], id, freeLimit);
      }
      if HasOp(trace[1..], OpConfirmRefund(id)) {
        HasOpLater(trace, OpConfirmRefund(id));
        if trace[0].op == OpRequestRefund(Run(s, trace, freeLimit).orders[id].tenant) {
          AskedFirst(trace, Run(s, trace, freeLimit).orders[id].tenant, id);
        }
      }
      if AskedThenConfirmed(trace[1..], Run(s, trace, freeLimit).orders[id].tenant, id) {
        AskedThenConfirmedLater(trace, Run(s, trace, freeLimit).orders[id].tenant, id);
      }
      if trace[0].op == OpConfirmRefund(id) {
        ConfirmedFirst(trace, id);
      }
    }
  }

  lemma AskedFirst(trace: seq<Event>, tenant: nat, id: nat)
    requires trace != [] && trace[0].op == OpRequestRefund(tenant) && HasOp(trace[1..], OpConfirmRefund(id))
    ensures AskedThenConfirmed(trace, tenant, id)
  {
    assert trace[0 + 1..] == trace[1..];
  }

  lemma ConfirmedFirst(trace: seq<Event>, id: nat)
    requires trace != [] && trace[0].op == OpConfirmRefund(id)
    ensures HasOp(trace, OpConfirmRefund(id))
  {
  }

  lemma TenantStays(s: State, trace: seq<Event>, id: nat, freeLimit: nat)
    requires Valid(s) && id < |s.orders|
    ensures id < |Run(s, trace, freeLimit).orders|
    ensures Run(s, trace, freeLimit).orders[id].tenant == s.orders[id].tenant
  {
    hide Run;
    RunKeeps(s, trace, freeLimit);
    assert OrderFollows(s.orders[id], Run(s, trace, freeLimit).orders[id]);
  }

  /** No order is refunded unless its tenant asked for a refund and that refund was confirmed afterwards. */
  lemma RefundsAreAskedFor(trace: seq<Event>, id: nat, freeLimit: nat)
    requires var s := Run(EMPTY, trace, freeLimit); id < |s.orders| && s.orders[id].status.Refunded?
    ensures AskedThenConfirmed(trace, Run(EMPTY, trace, freeLimit).orders[id].tenant, id)
  {
    EmptyIsValid();
    RefundPath(EMPTY, trace, id, freeLimit);
  }

  /**
   * Checkout, the amount sent to ЮKassa, its echo and our check agree: on its
   * first delivery a payment of any printed amount is applied exactly when
   * that amount is the order's.
   */
  lemma CheckoutPaymentApplies(s: State, id: nat, payment: Money.Payment, amountMinor: int, now: int)
    requires Valid(s) && id < |s.orders| && s.orders[id].status == Created && s.orders[id].provider == Yookassa
    requires payment.status == Money.Succeeded && payment.orderId == Some(id)
    requires amountMinor > 0 && Some(payment.amount) == Money.FormatAmount(amountMinor)
    ensures Money.FormatAmount(s.orders[id].amountMinor).Some?
    ensures Money.OutcomeOf(payment).Some?
    ensures var r := Money.OutcomeOf(payment).value;
      ApplyNotification(s, Notification(Yookassa, r.eventKey, r.orderId, r.isPaid, r.paidAmountMinor), now).1
        == if (Yookassa, r.eventKey) in s.events then Duplicate
           else if amountMinor == s.orders[id].amountMinor then Applied else AmountMismatch
  {
    hide Money.ParseAmountMinor, Settle;
    Money.ParseOfFormat(amountMinor);
  }

  /** A manual payment is refused only when its own key was already used. */
  lemma GrantAppliesExactly(s: State, g: Grant, now: int)
    requires g.tenant < |s.tenants|
    ensures GrantManualPayment(s, g, now).1.Ok? <==>
      (Manual, "manual:" + Decimal.Print(|s.orders|)) !in s.events
  {
    hide Settle;
  }

  /** Manual keys in the log name orders that exist. */
  ghost predicate ManualKeysKnown(s: State) {
    forall key :: (Manual, key) in s.events ==>
      exists i: nat :: i < |s.orders| && key == "manual:" + Decimal.Print(i)
  }

  ghost predicate OnlyProviderNotifies(trace: seq<Event>) {
    forall i :: 0 <= i < |trace| && trace[i].op.OpNotify? ==> trace[i].op.notification.provider == Yookassa
  }

  lemma {:induction false} CodeKeepsEvents(s: State, tenant: nat, draws: seq<string>)
    ensures ReferralCodeFor(s, tenant, draws).0.events == s.events
    decreases |draws|
  {
    if draws != [] {
      CodeKeepsEvents(s, tenant, draws[1..]);
    }
  }

  lemma {:induction false} ExpireKeepsEvents(s: State, n: nat, now: int, freeLimit: nat)
    requires n <= |s.tenants|
    ensures ExpireFirst(s, n, now, freeLimit).0.events == s.events
  {
    hide PlanCovering, PauseExcess, HasPaidHistory;
    if n > 0 {
      ExpireKeepsEvents(s, n - 1, now, freeLimit);
    }
  }

  /** Which keys one step adds to the log. */
  lemma StepEvents(s: State, e: Event, freeLimit: nat)
    ensures Step(s, e, freeLimit).events <= s.events
      + (if e.op.OpNotify? then {(e.op.notification.provider, e.op.notification.eventKey)}
         else if e.op.OpGrant? then {(Manual, "manual:" + Decimal.Print(|s.orders|))}
         else {})
    ensures e.op.OpGrant? && e.op.grant.tenant < |s.tenants| ==> |Step(s, e, freeLimit).orders| > |s.orders|
    ensures e.op.OpGrant? && e.op.grant.tenant >= |s.tenants| ==> Step(s, e, freeLimit) == s
  {
    hide Settle, PlanCovering, PauseExcess, Decimal.Print;
    match e.op {
      case OpNotify(n) => NotifyEvents(s, n, e.now);
      case OpGrant(g) =>
        NotifyEvents(s.(orders := s.orders + [GrantOrder(g)]), GrantNotification(g, |s.orders|), e.now);
      case OpReferralCode(t, draws) => CodeKeepsEvents(s, t, draws);
      case OpExpire => ExpireKeepsEvents(s, |s.tenants|, e.now, freeLimit);
      case _ =>
    }
  }

  lemma NotifyEvents(s: State, n: Notification, now: int)
    ensures ApplyNotification(s, n, now).0.events <= s.events + {(n.provider, n.eventKey)}
    ensures |ApplyNotification(s, n, now).0.orders| >= |s.orders|
  {
    hide FirstPaidAt, PartnerLink, Dates.AddMonths, CountPromoUse, SetPlan, PaidUntil;
    var s1 := s.(events := s.events + {(n.provider, n.eventKey)});
    if ApplyNotification(s, n, now).1 == Applied {
      EarningKeepsOrders(s1, n.orderId, now);
      RewardKeepsOrders(PayOrder(s1, n.orderId, now), s.orders[n.orderId].tenant, now);
    }
  }

  /** As long as notifications come from the checkout provider, granting by hand never fails for a known tenant. */
  lemma {:induction false} GrantNeverFails(s: State, trace: seq<Event>, freeLimit: nat, g: Grant, now: int)
    requires Valid(s) && ManualKeysKnown(s) && OnlyProviderNotifies(trace)
    requires g.tenant < |Run(s, trace, freeLimit).tenants|
    ensures GrantManualPayment(Run(s, trace, freeLimit), g, now).1.Ok?
    decreases |trace|
  {
    if trace == [] {
      GrantAppliesExactly(s, g, now);
      if (Manual, "manual:" + Decimal.Print(|s.orders|)) in s.events {
        var i: nat :| i < |s.orders| && "manual:" + Decimal.Print(|s.orders|) == "manual:" + Decimal.Print(i);
        assert ("manual:" + Decimal.Print(i))[7..] == Decimal.Print(i);
        assert ("manual:" + Decimal.Print(|s.orders|))[7..] == Decimal.Print(|s.orders|);
        Decimal.PrintInjective(|s.orders|, i);
      }
    } else {
      hide Valid, Step, GrantManualPayment, Decimal.Print;
      var next := Step(s, trace[0], freeLimit);
      StepKeeps(s, trace[0], freeLimit);
      StepEvents(s, trace[0], freeLimit);
      forall key | (Manual, key) in next.events
        ensures exists i: nat :: i < |next.orders| && key == "manual:" + Decimal.Print(i)
      {
        if (Manual, key) !in s.events {
          assert |s.orders| < |next.orders| && key == "manual:" + Decimal.Print(|s.orders|);
        }
      }
      assert OnlyProviderNotifies(trace[1..]);
      GrantNeverFails(next, trace[1..], freeLimit, g, now);
    }
  }
}
