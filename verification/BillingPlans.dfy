/** The plan a tenant has, the daily expiry job, and which targets it pauses. */
module BillingPlans {
  import opened Wrappers
  import opened Pricing
  import opened Sequences
  import opened Billing
  import opened BillingInvariants
  import opened BillingTheorems
  import Dates

  // ---- The plan paid time covers

  /** Paid time of the tenant covers `now`. */
  predicate RunsAt(o: Order, tenant: nat, now: int) {
    o.tenant == tenant && o.status.Paid? && o.status.period.start <= now < o.status.period.end
  }

  /** The plan of the order paid last among those that cover `now`; Free when none does. */
  ghost predicate IsPlanAt(orders: seq<Order>, tenant: nat, now: int, plan: Plan) {
    || (plan == Free && forall i :: 0 <= i < |orders| ==> !RunsAt(orders[i], tenant, now))
    || (exists i :: 0 <= i < |orders| && RunsAt(orders[i], tenant, now) && orders[i].plan == plan
          && forall j :: 0 <= j < |orders| && RunsAt(orders[j], tenant, now) ==>
              orders[j].status.period.paidAt <= orders[i].status.period.paidAt)
  }

  lemma CoveringIsPlanAt(orders: seq<Order>, tenant: nat, now: int)
    ensures IsPlanAt(orders, tenant, now, PlanCovering(orders, tenant, now))
  {
    hide CoveringOrder;
    assert forall i :: 0 <= i < |orders| ==> (RunsAt(orders[i], tenant, now) <==> Covers(orders[i], tenant, now));
  }

  /** Where paid periods are disjoint there is no choice. */
  lemma PlanAtIsCovering(orders: seq<Order>, tenant: nat, now: int, plan: Plan)
    requires PeriodsOk(orders)
    ensures IsPlanAt(orders, tenant, now, plan) <==> plan == PlanCovering(orders, tenant, now)
  {
    hide CoveringOrder, PeriodsOk;
    CoveringIsPlanAt(orders, tenant, now);
    if i :| 0 <= i < |orders| && RunsAt(orders[i], tenant, now) && orders[i].plan == plan {
      CoveringIsUnique(orders, tenant, now, i);
    }
  }

  // ---- Right after a payment

  /**
   * A payment sets the bought plan at once. That is the plan paid time covers
   * at that moment exactly when nothing was queued, or what covers it already
   * is the same plan.
   */
  lemma PlanAfterPayment(s: State, n: Notification, now: int)
    requires Valid(s) && ApplyNotification(s, n, now).1 == Applied
    ensures n.orderId < |s.orders| && s.orders[n.orderId].tenant < |s.tenants|
    ensures var o, s' := s.orders[n.orderId], ApplyNotification(s, n, now).0;
      && o.tenant < |s'.tenants| && s'.tenants[o.tenant].plan == o.plan
      && (IsPlanAt(s'.orders, o.tenant, now, o.plan) <==>
            || (forall i :: 0 <= i < |s.orders| && s.orders[i].tenant == o.tenant && s.orders[i].status.Paid? ==>
                  s.orders[i].status.period.end <= now)
            || IsPlanAt(s.orders, o.tenant, now, o.plan))
  {
    hide Valid, Follows, Settle, PlanCovering, LatestPaid, IsPlanAt, PeriodsOk;
    var s1 := s.(events := s.events + {(n.provider, n.eventKey)});
    assert Valid(s1) by { EventsKeep(s, s1.events); }
    PlanAfterSettle(s1, n.orderId, now);
    KeepsOnSettle(s1, n.orderId, now);
    ValidPeriods(s);
    ValidPeriods(Settle(s1, n.orderId, now));
    var o := s.orders[n.orderId];
    PlanAtIsCovering(s.orders, o.tenant, now, o.plan);
    PlanAtIsCovering(Settle(s1, n.orderId, now).orders, o.tenant, now, o.plan);
  }

  lemma PlanAfterSettle(s: State, id: nat, now: int)
    requires Valid(s) && id < |s.orders| && s.orders[id].status == Created
    ensures var o, s' := s.orders[id], Settle(s, id, now);
      && o.tenant < |s.tenants| == |s'.tenants| && s'.tenants[o.tenant].plan == o.plan
      && PlanCovering(s'.orders, o.tenant, now)
        == if LatestPaid(s.orders, o.tenant, now) == None then o.plan else PlanCovering(s.orders, o.tenant, now)
  {
    hide Valid, Follows, PlanCovering, LatestPaid, RewardReferrer, RecordEarning, MarkPaid, SamePaid;
    var o, paid := s.orders[id], PayOrder(s, id, now);
    assert o.tenant < |s.tenants| by { OrdersAreKnown(s, id); }
    EarningKeepsOrders(s, id, now);
    EarningKeepsTenants(s, id, now);
    KeepsOnPayOrder(s, id, now);
    RewardExtends(paid, o.tenant, o.tenant, now);
    RewardKeepsPayer(paid, o.tenant, now);
    SamePlans(paid, o.tenant, now);
    SameCovering(paid.orders, Settle(s, id, now).orders, o.tenant, now);
    CoveringAfterPay(s, id, now);
  }

  lemma OrdersAreKnown(s: State, id: nat)
    requires Valid(s) && id < |s.orders|
    ensures s.orders[id].tenant < |s.tenants|
  {
  }

  lemma SamePlans(s: State, referred: nat, now: int)
    ensures var orders' := RewardReferrer(s, referred, now).orders;
      |s.orders| <= |orders'| && forall i :: 0 <= i < |s.orders| ==> s.orders[i].plan == orders'[i].plan
  {
    RewardKeepsOrders(s, referred, now);
  }

  lemma EarningKeepsTenants(s: State, id: nat, now: int)
    requires id < |s.orders|
    ensures Settle(s, id, now).tenants
      == RewardReferrer(PayOrder(s, id, now), s.orders[id].tenant, now).tenants
  {
    hide RewardReferrer, FirstPaidAt, PartnerLink, Dates.AddMonths, CountPromoUse, SetPlan, MarkPaid;
    RewardKeepsOrders(PayOrder(s, id, now), s.orders[id].tenant, now);
  }

  lemma RewardKeepsPayer(s: State, payer: nat, now: int)
    requires Valid(s) && payer < |s.tenants|
    ensures var s' := RewardReferrer(s, payer, now);
      |s'.tenants| == |s.tenants| && s'.tenants[payer] == s.tenants[payer]
  {
    hide RewardOrder, CountRewards;
  }

  lemma CoveringAfterPay(s: State, id: nat, now: int)
    requires Valid(s) && id < |s.orders| && s.orders[id].status == Created
    ensures var o := s.orders[id];
      PlanCovering(PayOrder(s, id, now).orders, o.tenant, now)
        == if LatestPaid(s.orders, o.tenant, now) == None then o.plan else PlanCovering(s.orders, o.tenant, now)
  {
    var o, orders' := s.orders[id], PayOrder(s, id, now).orders;
    KeepsOnPayOrder(s, id, now);
    PayOrderExtends(s, id, o.tenant, now);
    hide Valid, Follows, CoveringOrder, Dates.AddMonths;
    assert PeriodsOk(s.orders) && PeriodsOk(orders') by { ValidPeriods(s); ValidPeriods(PayOrder(s, id, now)); }
    if LatestPaid(s.orders, o.tenant, now) == None {
      assert orders'[id].status.period.start == now;
      CoveringIsUnique(orders', o.tenant, now, id);
    } else {
      var before, after := CoveringOrder(s.orders, o.tenant, now), CoveringOrder(orders', o.tenant, now);
      if before.Some? {
        assert Covers(orders'[before.value], o.tenant, now);
        CoveringIsUnique(orders', o.tenant, now, before.value);
      }
    }
  }

  lemma ValidPeriods(s: State)
    requires Valid(s)
    ensures PeriodsOk(s.orders)
  {
  }

  lemma {:induction false} SameCovering(a: seq<Order>, b: seq<Order>, tenant: nat, now: int)
    requires SamePaid(a, b, tenant)
    ensures CoveringOrder(a, tenant, now) == CoveringOrder(b, tenant, now)
    ensures (forall i :: 0 <= i < |a| ==> a[i].plan == b[i].plan) ==>
      PlanCovering(a, tenant, now) == PlanCovering(b, tenant, now)
    decreases |b|
  {
    if |b| > |a| {
      SameCovering(a, b[..|b| - 1], tenant, now);
    } else if a != [] {
      SameCovering(a[..|a| - 1], b[..|b| - 1], tenant, now);
    }
  }

  /**
   * So a paying customer can be sent to Free: what it bought is queued behind
   * paid time that has not begun, and the daily job finds nothing that covers today.
   */
  lemma PaidThenExpired(s: State, n: Notification, now: int, freeLimit: nat)
    requires Valid(s) && ApplyNotification(s, n, now).1 == Applied && n.orderId < |s.orders|
    requires var t := s.orders[n.orderId].tenant;
      && LatestPaid(s.orders, t, now).Some? && PlanCovering(s.orders, t, now) == Free
      && t < |s.tenants| && !s.tenants[t].isDeleted
    ensures var t, s' := s.orders[n.orderId].tenant, ApplyNotification(s, n, now).0;
      && t < |s'.tenants| == |s.tenants| && s'.tenants[t].plan == s.orders[n.orderId].plan
      && n.orderId < |s'.orders| && PaidBy(s'.orders[n.orderId], t)
      && s'.orders[n.orderId].plan == s.orders[n.orderId].plan
      && |ExpirePaidPlans(s', now, freeLimit).0.tenants| == |s'.tenants|
      && ExpirePaidPlans(s', now, freeLimit).0.tenants[t].plan == Free
  {
    hide Valid, Follows, Settle, PlanCovering, LatestPaid, ExpirePaidPlans;
    var t, s' := s.orders[n.orderId].tenant, ApplyNotification(s, n, now).0;
    var s1 := s.(events := s.events + {(n.provider, n.eventKey)});
    assert Valid(s1) by { EventsKeep(s, s1.events); }
    PlanAfterSettle(s1, n.orderId, now);
    PaidByNotification(s, n, n.orderId, now);
    NotificationKeepsLive(s, n, now);
    assert s'.orders[n.orderId].tenant == t && s'.orders[n.orderId].status.Paid?;
    ExpirySettles(s', now, freeLimit);
  }

  /** A notification neither deletes nor restores a tenant. */
  lemma NotificationKeepsLive(s: State, n: Notification, now: int)
    requires Valid(s)
    ensures var s' := ApplyNotification(s, n, now).0;
      && |s'.tenants| == |s.tenants|
      && forall i :: 0 <= i < |s.tenants| ==> s'.tenants[i].isDeleted == s.tenants[i].isDeleted
  {
    hide Valid, RewardOrder, FirstPaidAt, PartnerLink, Dates.AddMonths, CountPromoUse, MarkPaid, CountRewards;
    if ApplyNotification(s, n, now).1 == Applied {
      var s1 := s.(events := s.events + {(n.provider, n.eventKey)});
      RewardKeepsOrders(PayOrder(s1, n.orderId, now), s.orders[n.orderId].tenant, now);
    }
  }

  // ---- Active targets, oldest first

  ghost predicate SortedByAge(targets: seq<Target>, ids: seq<nat>) {
    && AllBelow(ids, |targets|)
    && forall i, j :: 0 <= i < j < |ids| ==> Older(targets, ids[i], ids[j])
  }

  lemma {:induction false} InsertByAgeSorts(targets: seq<Target>, sorted: seq<nat>, id: nat)
    requires SortedByAge(targets, sorted) && id < |targets| && id !in sorted
    ensures SortedByAge(targets, InsertByAge(targets, sorted, id))
    ensures forall x :: x in InsertByAge(targets, sorted, id) <==> x in sorted || x == id
  {
    var r := InsertByAge(targets, sorted, id);
    if sorted != [] && !Older(targets, id, sorted[0]) {
      InsertByAgeSorts(targets, sorted[1..], id);
      var rest := InsertByAge(targets, sorted[1..], id);
      assert Older(targets, sorted[0], id);
      assert forall x :: x in rest ==> Older(targets, sorted[0], x);
      assert forall x :: x in sorted <==> x == sorted[0] || x in sorted[1..];
    }
  }

  lemma NoneIsSorted(targets: seq<Target>)
    ensures SortedByAge(targets, [])
  {
  }

  lemma {:induction false} ActiveByAgeIsSorted(targets: seq<Target>, tenant: nat, n: nat)
    requires n <= |targets|
    ensures SortedByAge(targets, ActiveByAge(targets, tenant, n))
    ensures forall x: nat :: x in ActiveByAge(targets, tenant, n) <==> x < n && IsActive(targets[x], tenant)
  {
    hide SortedByAge, InsertByAge, IsActive, Older;
    if n == 0 {
      NoneIsSorted(targets);
    } else {
      ActiveByAgeIsSorted(targets, tenant, n - 1);
      if IsActive(targets[n - 1], tenant) {
        InsertByAgeSorts(targets, ActiveByAge(targets, tenant, n - 1), n - 1);
      }
    }
  }

  /** Two age-ordered lists of the same targets are the same list. */
  lemma {:induction false} SortedByAgeIsUnique(targets: seq<Target>, a: seq<nat>, b: seq<nat>)
    requires SortedByAge(targets, a) && SortedByAge(targets, b)
    requires forall x :: x in a <==> x in b
    ensures a == b
  {
    assert b != [] ==> b[0] in a;
    if a != [] {
      assert a[0] in b;
      assert a[0] == b[0];
      forall x ensures x in a[1..] <==> x in b[1..] {
        assert x in a[1..] ==> x in a && x != a[0];
        assert x in b[1..] ==> x in b && x != b[0];
      }
      SortedByAgeIsUnique(targets, a[1..], b[1..]);
    }
  }

  /** The same rows, but that some targets that were neither deleted, paused nor self are paused now. */
  ghost predicate OnlyPauses(targets: seq<Target>, targets': seq<Target>, now: int) {
    && |targets| == |targets'|
    && forall i :: 0 <= i < |targets| ==>
        || targets'[i] == targets[i]
        || (&& !targets[i].isDeleted && targets[i].pausedAt == None && !targets[i].isSelf
            && targets'[i] == targets[i].(pausedAt := Some(now)))
  }

  /** Nothing but pauses differs, and the tenant's rows are the same. */
  ghost predicate SameFor(targets: seq<Target>, targets': seq<Target>, tenant: nat, now: int) {
    && OnlyPauses(targets, targets', now)
    && forall i :: 0 <= i < |targets| && targets[i].tenant == tenant ==> targets'[i] == targets[i]
  }

  lemma SameActive(targets: seq<Target>, targets': seq<Target>, tenant: nat, now: int)
    requires SameFor(targets, targets', tenant, now)
    ensures ActiveByAge(targets', tenant, |targets'|) == ActiveByAge(targets, tenant, |targets|)
  {
    var a, b := ActiveByAge(targets, tenant, |targets|), ActiveByAge(targets', tenant, |targets'|);
    ActiveByAgeIsSorted(targets, tenant, |targets|);
    ActiveByAgeIsSorted(targets', tenant, |targets'|);
    assert SortedByAge(targets, b);
    SortedByAgeIsUnique(targets, a, b);
  }

  function Oldest(ids: seq<nat>, limit: nat): seq<nat> {
    if |ids| <= limit then ids else ids[..limit]
  }

  lemma SplitIsDisjoint(targets: seq<Target>, active: seq<nat>, limit: nat)
    requires SortedByAge(targets, active) && limit <= |active|
    ensures SortedByAge(targets, active[..limit])
    ensures forall x: nat :: x in active[..limit] <==> x in active && x !in active[limit..]
  {
    forall x: nat ensures x in active[..limit] <==> x in active && x !in active[limit..] {
      assert active == active[..limit] + active[limit..];
    }
  }

  /** Pausing keeps exactly the oldest active targets, up to the limit, in order; other tenants' rows stay. */
  lemma PauseKeepsFirst(targets: seq<Target>, tenant: nat, limit: nat, now: int)
    ensures var targets' := PauseExcess(targets, tenant, limit, now);
      && (forall t: nat :: t != tenant ==> SameFor(targets, targets', t, now))
      && ActiveByAge(targets', tenant, |targets'|) == Oldest(ActiveByAge(targets, tenant, |targets|), limit)
  {
    hide ActiveByAge;
    var targets' := PauseExcess(targets, tenant, limit, now);
    var active := ActiveByAge(targets, tenant, |targets|);
    var active' := ActiveByAge(targets', tenant, |targets'|);
    ActiveByAgeIsSorted(targets, tenant, |targets|);
    ActiveByAgeIsSorted(targets', tenant, |targets'|);
    if |active| > limit {
      SplitIsDisjoint(targets, active, limit);
    }
    assert SortedByAge(targets, active');
    SortedByAgeIsUnique(targets, active', Oldest(active, limit));
  }

  /** The target counts against the tenant's plan. */
  function CountsFor(tenant: nat): Target -> bool {
    (t: Target) => t.tenant == tenant && !t.isDeleted && t.pausedAt == None && !t.isSelf
  }

  /**
   * Of the tenant's targets that count, `limit` stay or all there are, none of
   * them newer than one that is paused now; its other rows are as they were.
   */
  ghost predicate KeepsOldest(targets: seq<Target>, targets': seq<Target>, tenant: nat, limit: nat, now: int) {
    && |targets'| == |targets|
    && (forall i :: 0 <= i < |targets| && targets[i].tenant == tenant && targets'[i] != targets[i] ==>
          CountsFor(tenant)(targets[i]) && targets'[i] == targets[i].(pausedAt := Some(now)))
    && (forall i, j ::
          (&& 0 <= i < |targets| && CountsFor(tenant)(targets[i]) && targets'[i].pausedAt == None
           && 0 <= j < |targets| && CountsFor(tenant)(targets[j]) && targets'[j].pausedAt.Some?) ==>
          targets[i].createdAt <= targets[j].createdAt)
    && Count(targets', CountsFor(tenant)) == AtMost(Count(targets, CountsFor(tenant)), limit)
  }

  function AtMost(n: nat, limit: nat): nat {
    if n < limit then n else limit
  }

  lemma {:induction false} ActiveAreCounted(targets: seq<Target>, tenant: nat, n: nat)
    requires n <= |targets|
    ensures |ActiveByAge(targets, tenant, n)| == Count(targets[..n], CountsFor(tenant))
  {
    if n > 0 {
      ActiveAreCounted(targets, tenant, n - 1);
      assert targets[..n][..n - 1] == targets[..n - 1];
      InsertAddsOne(targets, ActiveByAge(targets, tenant, n - 1), n - 1);
    }
  }

  lemma {:induction false} InsertAddsOne(targets: seq<Target>, sorted: seq<nat>, id: nat)
    requires AllBelow(sorted, |targets|) && id < |targets|
    ensures |InsertByAge(targets, sorted, id)| == |sorted| + 1
  {
    if sorted != [] && !Older(targets, id, sorted[0]) {
      InsertAddsOne(targets, sorted[1..], id);
    }
  }

  lemma FirstAreOldest(targets: seq<Target>, targets': seq<Target>, tenant: nat, limit: nat, now: int)
    requires OnlyPauses(targets, targets', now)
    requires ActiveByAge(targets', tenant, |targets'|) == Oldest(ActiveByAge(targets, tenant, |targets|), limit)
    ensures KeepsOldest(targets, targets', tenant, limit, now)
  {
    hide ActiveByAge;
    var active := ActiveByAge(targets, tenant, |targets|);
    ActiveByAgeIsSorted(targets, tenant, |targets|);
    ActiveByAgeIsSorted(targets', tenant, |targets'|);
    ActiveAreCounted(targets, tenant, |targets|);
    ActiveAreCounted(targets', tenant, |targets'|);
    assert targets[..|targets|] == targets && targets'[..|targets'|] == targets';
    forall i, j | 0 <= i < |targets| && CountsFor(tenant)(targets[i]) && targets'[i].pausedAt == None
      && 0 <= j < |targets| && CountsFor(tenant)(targets[j]) && targets'[j].pausedAt.Some?
      ensures targets[i].createdAt <= targets[j].createdAt
    {
      StaysBefore(targets, active, limit, i, j);
    }
  }

  lemma StaysBefore(targets: seq<Target>, active: seq<nat>, limit: nat, i: nat, j: nat)
    requires SortedByAge(targets, active) && i in Oldest(active, limit)
    requires j in active && j !in Oldest(active, limit)
    ensures i < |targets| && j < |targets| && targets[i].createdAt <= targets[j].createdAt
  {
    var a :| 0 <= a < |Oldest(active, limit)| && Oldest(active, limit)[a] == i;
    var b :| 0 <= b < |active| && active[b] == j;
    assert forall k :: 0 <= k < |Oldest(active, limit)| ==> active[k] in Oldest(active, limit);
    assert Older(targets, active[a], active[b]);
  }

  /** Pausing keeps the oldest targets that count, up to the limit, and touches no other tenant's rows. */
  lemma PauseKeepsOldest(targets: seq<Target>, tenant: nat, limit: nat, now: int)
    ensures var targets' := PauseExcess(targets, tenant, limit, now);
      && KeepsOldest(targets, targets', tenant, limit, now)
      && forall i :: 0 <= i < |targets| && targets[i].tenant != tenant ==> targets'[i] == targets[i]
  {
    hide ActiveByAge, KeepsOldest, PauseExcess;
    var targets' := PauseExcess(targets, tenant, limit, now);
    PauseKeepsFirst(targets, tenant, limit, now);
    assert SameFor(targets, targets', tenant + 1, now);
    FirstAreOldest(targets, targets', tenant, limit, now);
    forall i | 0 <= i < |targets| && targets[i].tenant != tenant
      ensures targets'[i] == targets[i]
    {
      assert SameFor(targets, targets', targets[i].tenant, now);
    }
  }

  // ---- The daily job

  /** What one tenant's row and targets are after the job has passed it. */
  ghost predicate Settled(s: State, s': State, tenant: nat, now: int, freeLimit: nat)
    requires tenant < |s.tenants| && |s'.tenants| == |s.tenants|
  {
    var covering := PlanCovering(s.orders, tenant, now);
    if !HasPaidHistory(s, tenant) || covering == s.tenants[tenant].plan then
      Untouched(s, s', tenant)
    else
      && s'.tenants[tenant] == s.tenants[tenant].(plan := covering)
      && ActiveByAge(s'.targets, tenant, |s'.targets|)
        == (var active := ActiveByAge(s.targets, tenant, |s.targets|);
            if covering == Free then Oldest(active, freeLimit) else active)
  }

  ghost predicate Untouched(s: State, s': State, tenant: nat)
    requires tenant < |s.tenants| && |s'.tenants| == |s.tenants|
  {
    && s'.tenants[tenant] == s.tenants[tenant]
    && |s'.targets| == |s.targets|
    && forall i :: 0 <= i < |s.targets| && s.targets[i].tenant == tenant ==> s'.targets[i] == s.targets[i]
  }

  predicate MovedToFree(s: State, tenant: nat, now: int) {
    HasPaidHistory(s, tenant) && s.tenants[tenant].plan != Free && PlanCovering(s.orders, tenant, now) == Free
  }

  lemma {:induction false} ExpireFirstSettles(s: State, n: nat, now: int, freeLimit: nat)
    requires n <= |s.tenants|
    ensures var (s', downgraded) := ExpireFirst(s, n, now, freeLimit);
      && s' == s.(tenants := s'.tenants, targets := s'.targets)
      && |s'.tenants| == |s.tenants|
      && (forall t :: n <= t < |s.tenants| ==> s'.tenants[t] == s.tenants[t])
      && (forall t: nat :: n <= t ==> SameFor(s.targets, s'.targets, t, now))
      && (forall t :: 0 <= t < n ==> Settled(s, s', t, now, freeLimit))
      && (forall t: nat :: t in downgraded <==> t < n && MovedToFree(s, t, now))
      && (forall i, j :: 0 <= i < j < |downgraded| ==> downgraded[i] < downgraded[j])
  {
    hide PlanCovering, ActiveByAge, PauseExcess, HasPaidHistory, SameFor, Settled;
    if n == 0 {
      SameForItself(s.targets, now);
    } else {
      ExpireFirstSettles(s, n - 1, now, freeLimit);
      ExpireOneMore(s, n - 1, now, freeLimit);
      var downgraded := ExpireFirst(s, n - 1, now, freeLimit).1;
      forall i | 0 <= i < |downgraded|
        ensures downgraded[i] < n - 1
      {
        assert downgraded[i] in downgraded;
      }
    }
  }

  lemma SameForItself(targets: seq<Target>, now: int)
    ensures forall t: nat :: SameFor(targets, targets, t, now)
  {
  }

  lemma ExpireOneMore(s: State, tenant: nat, now: int, freeLimit: nat)
    requires tenant < |s.tenants|
    requires var (before, downgraded) := ExpireFirst(s, tenant, now, freeLimit);
      && before == s.(tenants := before.tenants, targets := before.targets)
      && (forall t :: tenant <= t < |s.tenants| ==> before.tenants[t] == s.tenants[t])
      && (forall t: nat :: tenant <= t ==> SameFor(s.targets, before.targets, t, now))
      && (forall t :: 0 <= t < tenant ==> Settled(s, before, t, now, freeLimit))
    ensures var s' := ExpireFirst(s, tenant + 1, now, freeLimit).0;
      && s' == s.(tenants := s'.tenants, targets := s'.targets)
      && (forall t :: tenant < t < |s.tenants| ==> s'.tenants[t] == s.tenants[t])
      && (forall t: nat :: tenant < t ==> SameFor(s.targets, s'.targets, t, now))
      && (forall t :: 0 <= t < tenant + 1 ==> Settled(s, s', t, now, freeLimit))
  {
    hide PlanCovering, ActiveByAge, PauseExcess, HasPaidHistory;
    var before, s' := ExpireFirst(s, tenant, now, freeLimit).0, ExpireFirst(s, tenant + 1, now, freeLimit).0;
    SameActive(s.targets, before.targets, tenant, now);
    if s' != before {
      PauseKeepsFirst(before.targets, tenant, freeLimit, now);
    }
    forall t: nat | t != tenant
      ensures SameFor(before.targets, s'.targets, t, now)
    {
    }
    forall t: nat | tenant < t
      ensures SameFor(s.targets, s'.targets, t, now)
    {
      assert SameFor(s.targets, before.targets, t, now) && SameFor(before.targets, s'.targets, t, now);
    }
    forall t: nat | t < tenant
      ensures Settled(s, s', t, now, freeLimit)
    {
      SettledStays(s, before, s', t, now, freeLimit);
    }
  }

  lemma SettledStays(s: State, before: State, s': State, tenant: nat, now: int, freeLimit: nat)
    requires tenant < |s.tenants| == |before.tenants| == |s'.tenants|
    requires Settled(s, before, tenant, now, freeLimit) && s'.tenants[tenant] == before.tenants[tenant]
    requires SameFor(before.targets, s'.targets, tenant, now) && OnlyPauses(s.targets, before.targets, now)
    ensures Settled(s, s', tenant, now, freeLimit)
  {
    hide PlanCovering, ActiveByAge, HasPaidHistory;
    SameActive(before.targets, s'.targets, tenant, now);
  }

  lemma ExpirySettles(s: State, now: int, freeLimit: nat)
    ensures var (s', downgraded) := ExpirePaidPlans(s, now, freeLimit);
      && s' == s.(tenants := s'.tenants, targets := s'.targets) && |s'.tenants| == |s.tenants|
      && (forall t :: 0 <= t < |s.tenants| ==>
            && (HasPaidHistory(s, t) ==> s'.tenants[t].plan == PlanCovering(s'.orders, t, now))
            && (!HasPaidHistory(s, t) ==> Untouched(s, s', t)))
      && (forall t :: 0 <= t < |s.tenants| && MovedToFree(s, t, now) ==>
            ActiveByAge(s'.targets, t, |s'.targets|)
              == Oldest(ActiveByAge(s.targets, t, |s.targets|), freeLimit))
      && (forall t: nat :: t in downgraded <==> MovedToFree(s, t, now))
      && (forall i, j :: 0 <= i < j < |downgraded| ==> downgraded[i] != downgraded[j])
  {
    hide PlanCovering, ActiveByAge, HasPaidHistory;
    ExpireFirstSettles(s, |s.tenants|, now, freeLimit);
    var s' := ExpirePaidPlans(s, now, freeLimit).0;
    forall t | 0 <= t < |s.tenants|
      ensures HasPaidHistory(s, t) ==> s'.tenants[t].plan == PlanCovering(s'.orders, t, now)
      ensures !HasPaidHistory(s, t) ==> Untouched(s, s', t)
      ensures MovedToFree(s, t, now) ==>
        ActiveByAge(s'.targets, t, |s'.targets|) == Oldest(ActiveByAge(s.targets, t, |s.targets|), freeLimit)
    {
      assert Settled(s, s', t, now, freeLimit);
    }
    forall t: nat | MovedToFree(s, t, now)
      ensures t < |s.tenants|
    {
      PaidHistoryIsKnown(s, t);
    }
  }

  /** The tenant has an order that is paid or was refunded. */
  ghost predicate PaidOnceOrRefunded(orders: seq<Order>, tenant: nat) {
    exists i :: 0 <= i < |orders| && orders[i].tenant == tenant
      && (orders[i].status.Paid? || orders[i].status.Refunded?)
  }

  /** With the same targets counted, no row of the tenant differs. */
  lemma SameCounted(targets: seq<Target>, targets': seq<Target>, tenant: nat, now: int)
    requires OnlyPauses(targets, targets', now)
    requires ActiveByAge(targets', tenant, |targets'|) == ActiveByAge(targets, tenant, |targets|)
    ensures forall i :: 0 <= i < |targets| && targets[i].tenant == tenant ==> targets'[i] == targets[i]
  {
    hide ActiveByAge;
    ActiveByAgeIsSorted(targets, tenant, |targets|);
    ActiveByAgeIsSorted(targets', tenant, |targets'|);
    forall i | 0 <= i < |targets| && targets[i].tenant == tenant
      ensures targets'[i] == targets[i]
    {
      assert i in ActiveByAge(targets', tenant, |targets'|) <==> i in ActiveByAge(targets, tenant, |targets|);
    }
  }

  /** What a tenant's plan and targets are once it has the plan its paid time covers. */
  ghost predicate HasItsPlan(s: State, s': State, tenant: nat, now: int, freeLimit: nat)
    requires tenant < |s.tenants| == |s'.tenants|
  {
    && IsPlanAt(s.orders, tenant, now, s'.tenants[tenant].plan)
    && s'.tenants[tenant] == s.tenants[tenant].(plan := s'.tenants[tenant].plan)
    && (s'.tenants[tenant].plan != s.tenants[tenant].plan && s'.tenants[tenant].plan == Free ==>
          KeepsOldest(s.targets, s'.targets, tenant, freeLimit, now))
    && (s'.tenants[tenant].plan == s.tenants[tenant].plan || s'.tenants[tenant].plan != Free ==>
          SameTargets(s.targets, s'.targets, tenant))
  }

  ghost predicate SameTargets(targets: seq<Target>, targets': seq<Target>, tenant: nat) {
    && |targets'| == |targets|
    && forall i :: 0 <= i < |targets| && targets[i].tenant == tenant ==> targets'[i] == targets[i]
  }

  /**
   * After the daily job every live tenant with a paid or refunded order has
   * the plan its paid time covers now; everyone else, also a tenant whose only
   * order is being refunded, is untouched with its targets. Those moved to
   * Free keep their oldest targets within the Free limit, and they are the
   * ones reported, each once. Nobody else's targets change.
   */
  lemma ExpiryMeetsPlans(s: State, now: int, freeLimit: nat)
    ensures var (s', downgraded) := ExpirePaidPlans(s, now, freeLimit);
      && s' == s.(tenants := s'.tenants, targets := s'.targets) && |s'.tenants| == |s.tenants|
      && (forall t :: 0 <= t < |s.tenants| ==>
            if !s.tenants[t].isDeleted && PaidOnceOrRefunded(s.orders, t) then HasItsPlan(s, s', t, now, freeLimit)
            else s'.tenants[t] == s.tenants[t] && SameTargets(s.targets, s'.targets, t))
      && (forall t: nat :: t in downgraded <==>
            t < |s.tenants| && s.tenants[t].plan != Free && s'.tenants[t].plan == Free)
      && (forall i, j :: 0 <= i < j < |downgraded| ==> downgraded[i] != downgraded[j])
  {
    hide PlanCovering, ActiveByAge, KeepsOldest, IsPlanAt, SameTargets, ExpirePaidPlans;
    ExpirySettles(s, now, freeLimit);
    var (s', downgraded) := ExpirePaidPlans(s, now, freeLimit);
    forall t: nat | t < |s.tenants|
      ensures if HasPaidHistory(s, t) then HasItsPlan(s, s', t, now, freeLimit)
              else s'.tenants[t] == s.tenants[t] && SameTargets(s.targets, s'.targets, t)
      ensures MovedToFree(s, t, now) <==> s.tenants[t].plan != Free && s'.tenants[t].plan == Free
    {
      TenantSettles(s, t, now, freeLimit);
    }
    forall t: nat
      ensures t in downgraded <==> t < |s.tenants| && s.tenants[t].plan != Free && s'.tenants[t].plan == Free
    {
      assert MovedToFree(s, t, now) ==> t < |s.tenants|;
    }
  }

  lemma TenantSettles(s: State, tenant: nat, now: int, freeLimit: nat)
    requires tenant < |s.tenants|
    ensures var s' := ExpirePaidPlans(s, now, freeLimit).0;
      && |s'.tenants| == |s.tenants|
      && (if HasPaidHistory(s, tenant) then HasItsPlan(s, s', tenant, now, freeLimit)
          else s'.tenants[tenant] == s.tenants[tenant] && SameTargets(s.targets, s'.targets, tenant))
      && (MovedToFree(s, tenant, now) <==> s.tenants[tenant].plan != Free && s'.tenants[tenant].plan == Free)
  {
    hide PlanCovering, ActiveByAge, HasPaidHistory, KeepsOldest, IsPlanAt;
    var s' := ExpirePaidPlans(s, now, freeLimit).0;
    ExpireFirstSettles(s, |s.tenants|, now, freeLimit);
    assert SameFor(s.targets, s'.targets, |s.tenants|, now) && Settled(s, s', tenant, now, freeLimit);
    CoveringIsPlanAt(s.orders, tenant, now);
    if HasPaidHistory(s, tenant) && PlanCovering(s.orders, tenant, now) != s.tenants[tenant].plan {
      if PlanCovering(s.orders, tenant, now) == Free {
        FirstAreOldest(s.targets, s'.targets, tenant, freeLimit, now);
      } else {
        SameCounted(s.targets, s'.targets, tenant, now);
      }
    }
  }

  /**
   * "Every tenant that ever paid" is not who the job looks at. A live tenant
   * that paid ends the job on the plan its paid time covers exactly when it
   * has an order paid or refunded, or was on Free already: one whose every
   * payment has its refund asked for keeps a plan that covers nothing.
   */
  lemma ExpiryMeetsPlanExactly(s: State, tenant: nat, i: nat, now: int, freeLimit: nat)
    requires tenant < |s.tenants| && !s.tenants[tenant].isDeleted
    requires i < |s.orders| && s.orders[i].tenant == tenant && s.orders[i].status.EverPaid()
    ensures var s' := ExpirePaidPlans(s, now, freeLimit).0;
      && tenant < |s'.tenants|
      && (IsPlanAt(s.orders, tenant, now, s'.tenants[tenant].plan) <==>
            PaidOnceOrRefunded(s.orders, tenant) || s.tenants[tenant].plan == Free)
      && (!PaidOnceOrRefunded(s.orders, tenant) ==>
            s'.tenants[tenant] == s.tenants[tenant] && IsPlanAt(s.orders, tenant, now, Free))
  {
    ExpiryMeetsPlans(s, now, freeLimit);
    hide ExpirePaidPlans;
  }

  lemma PaidHistoryIsKnown(s: State, tenant: nat)
    requires HasPaidHistory(s, tenant)
    ensures tenant < |s.tenants|
  {
  }

  lemma {:induction false} NothingToExpire(s: State, n: nat, now: int, freeLimit: nat)
    requires n <= |s.tenants|
    requires forall t :: 0 <= t < n && HasPaidHistory(s, t) ==> s.tenants[t].plan == PlanCovering(s.orders, t, now)
    ensures ExpireFirst(s, n, now, freeLimit) == (s, [])
  {
    hide PlanCovering, HasPaidHistory;
    if n > 0 {
      NothingToExpire(s, n - 1, now, freeLimit);
    }
  }

  /** Running the job again at the same time changes nothing and reports nobody. */
  lemma ExpiryIsIdempotent(s: State, now: int, freeLimit: nat)
    ensures var s' := ExpirePaidPlans(s, now, freeLimit).0;
      ExpirePaidPlans(s', now, freeLimit) == (s', [])
  {
    var s' := ExpirePaidPlans(s, now, freeLimit).0;
    ExpirySettles(s, now, freeLimit);
    ExpireFirstSettles(s, |s.tenants|, now, freeLimit);
    forall t: nat | t < |s'.tenants| && HasPaidHistory(s', t)
      ensures HasPaidHistory(s, t)
    {
      assert Settled(s, s', t, now, freeLimit);
    }
    NothingToExpire(s', |s'.tenants|, now, freeLimit);
  }

  // ---- Refunds

  /**
   * Confirming a refund that was asked for ends the order's time now, leaves
   * every other order as it was, and gives the tenant the plan its other paid
   * time covers, with its newest targets beyond the Free limit paused if there
   * is none. Nobody else changes. Any other order is answered with "not found".
   */
  lemma RefundSettles(s: State, id: nat, now: int, freeLimit: nat)
    requires Valid(s)
    ensures var (s', r) := ConfirmRefund(s, id, now, freeLimit);
      && (r == Err(NotFound) <==> id >= |s.orders| || !s.orders[id].status.RefundRequested?)
      && (r.Err? ==> r == Err(NotFound) && s' == s)
      && (r.Ok? ==>
            var o, plan := s.orders[id], s'.tenants[s.orders[id].tenant].plan;
            && o.tenant < |s.tenants|
            && s' == s.(orders := s.orders[id := o.(status := Refunded(o.status.period.(end := now)))],
                        tenants := s.tenants[o.tenant := s.tenants[o.tenant].(plan := plan)],
                        targets := s'.targets)
            && IsPlanAt(s'.orders, o.tenant, now, plan)
            && (if plan == Free then KeepsOldest(s.targets, s'.targets, o.tenant, freeLimit, now)
                else s'.targets == s.targets)
            && forall i :: 0 <= i < |s.targets| && s.targets[i].tenant != o.tenant ==> s'.targets[i] == s.targets[i])
  {
    hide Valid, PauseExcess, PlanCovering, KeepsOldest, IsPlanAt;
    if id < |s.orders| && s.orders[id].status.RefundRequested? {
      OrdersAreKnown(s, id);
      var o := s.orders[id];
      CoveringIsPlanAt(ConfirmRefund(s, id, now, freeLimit).0.orders, o.tenant, now);
      PauseKeepsOldest(s.targets, o.tenant, freeLimit, now);
    }
  }

  /** A payment of real money within the last fourteen days. */
  predicate IsRecentMoney(o: Order, tenant: nat, now: int) {
    && o.tenant == tenant && o.status.Paid? && o.status.period.paidAt > now - 14 * 86_400_000
    && (o.provider == Yookassa || o.provider == Manual)
  }

  /** A request takes the latest money payment of the last fourteen days, or is refused because there is none. */
  lemma RefundWindow(s: State, tenant: nat, now: int)
    ensures var (s', r) := RequestRefund(s, tenant, now);
      && (r == Err(RefundWindowClosed) <==>
            forall i :: 0 <= i < |s.orders| ==> !IsRecentMoney(s.orders[i], tenant, now))
      && (r.Err? ==> r == Err(RefundWindowClosed) && s' == s)
      && (r.Ok? ==>
            && r.value < |s.orders| && IsRecentMoney(s.orders[r.value], tenant, now)
            && (forall i :: 0 <= i < |s.orders| && IsRecentMoney(s.orders[i], tenant, now) ==>
                  s.orders[i].status.period.paidAt <= s.orders[r.value].status.period.paidAt)
            && var o := s.orders[r.value];
            && s' == s.(orders := s.orders[r.value := o.(status := RefundRequested(o.status.period))])
            && forall t: nat, x :: IsCovered(s'.orders, t, x) ==> IsCovered(s.orders, t, x))
  {
    var (s', r) := RequestRefund(s, tenant, now);
    hide LatestRefundable;
    assert forall i :: 0 <= i < |s.orders| ==>
      (IsRecentMoney(s.orders[i], tenant, now) <==> IsRefundable(s.orders[i], tenant, now));
    forall t: nat, x | IsCovered(s'.orders, t, x)
      ensures IsCovered(s.orders, t, x)
    {
      var k :| 0 <= k < |s'.orders| && Covers(s'.orders[k], t, x);
      assert Covers(s.orders[k], t, x);
    }
  }
}
