/**
 * The billing tables and what each operation does to them
 * (packages/domain/src/billing). A table whose rows are only ever added is a
 * sequence, and a row's position is its identifier; earnings are a map because
 * their order's identifier is unique. Every operation is one atomic step.
 */
module Billing {
  import opened Wrappers
  import opened Pricing
  import opened Sequences
  import Dates
  import Decimal

  const DAY_MS := 86_400_000
  const REFUND_WINDOW_MS := 14 * DAY_MS
  const REFERRAL_TRIAL_MS := 28 * DAY_MS
  const MAX_REFERRAL_MONTHS := 12
  const WINBACK_VALID_MS := 7 * DAY_MS

  // ---- Rows

  datatype Provider = Yookassa | Manual | Referral

  /** When it was paid and the time it bought. */
  datatype Period = Period(paidAt: int, start: int, end: int)

  /** created -> paid -> refund_requested -> refunded, or created -> failed. */
  datatype Status =
    | Created
    | Failed
    | Paid(period: Period)
    | RefundRequested(period: Period)
    | Refunded(period: Period)
  {
    predicate EverPaid() {
      Paid? || RefundRequested? || Refunded?
    }
  }

  datatype Order = Order(
    tenant: nat, plan: PaidPlan, months: Term, amountMinor: int, currency: Currency,
    isEarly: bool, promoCode: Option<string>, provider: Provider, status: Status)

  datatype AcquiredVia = Organic | ViaCode | ViaReferral

  datatype Tenant = Tenant(
    plan: Plan, trialEndsAt: int, createdAt: int, acquiredVia: AcquiredVia,
    acquiredCode: Option<string>, referralCode: Option<string>, winbackSentAt: Option<int>,
    isDeleted: bool)

  datatype ReferralRow = ReferralRow(referrer: nat, referred: nat, isRewarded: bool)

  datatype Promo = Promo(
    code: string, isCampaign: bool, percentOff: int, months: Option<int>, trialDays: Option<int>,
    planFilter: Option<Plan>, minMonths: Option<int>, startsAt: Option<int>, endsAt: Option<int>,
    maxUses: Option<int>, used: nat, partner: Option<nat>, tenant: Option<nat>)

  datatype Partner = Partner(percent: int, months: int)

  datatype Earning = Earning(partner: nat, tenant: nat, amountMinor: int, createdAt: int)

  datatype Target = Target(tenant: nat, isSelf: bool, createdAt: int, isDeleted: bool, pausedAt: Option<int>)

  datatype State = State(
    tenants: seq<Tenant>, orders: seq<Order>, events: set<(Provider, string)>,
    referrals: seq<ReferralRow>, promos: seq<Promo>, partners: seq<Partner>,
    earnings: map<nat, Earning>, targets: seq<Target>)

  const EMPTY := State([], [], {}, [], [], [], map[], [])

  // ---- Queries over orders

  predicate PaidBy(o: Order, tenant: nat) {
    o.tenant == tenant && o.status.Paid?
  }

  /** The paid order of the tenant that ends last among those ending after `now`: `ORDER BY period_end DESC LIMIT 1`. */
  function LatestPaid(orders: seq<Order>, tenant: nat, now: int): (latest: Option<nat>)
    ensures latest.Some? ==>
      && latest.value < |orders|
      && PaidBy(orders[latest.value], tenant)
      && orders[latest.value].status.period.end > now
    ensures forall i :: 0 <= i < |orders| && PaidBy(orders[i], tenant) && orders[i].status.period.end > now ==>
      latest.Some? && orders[i].status.period.end <= orders[latest.value].status.period.end
  {
    if orders == [] then None
    else
      var n := |orders| - 1;
      var before := LatestPaid(orders[..n], tenant, now);
      var o := orders[n];
      if PaidBy(o, tenant) && o.status.period.end > now
         && (before == None || o.status.period.end > orders[before.value].status.period.end)
      then Some(n) else before
  }

  /** The latest end among the paid orders that end after `now`; `now` itself if there is none. */
  function PaidUntil(orders: seq<Order>, tenant: nat, now: int): int {
    var latest := LatestPaid(orders, tenant, now);
    if latest.Some? then orders[latest.value].status.period.end else now
  }

  predicate Covers(o: Order, tenant: nat, now: int) {
    PaidBy(o, tenant) && o.status.period.start <= now < o.status.period.end
  }

  /** The covering order paid most recently: `ORDER BY paid_at DESC LIMIT 1`. */
  function CoveringOrder(orders: seq<Order>, tenant: nat, now: int): (found: Option<nat>)
    ensures found.Some? ==> found.value < |orders| && Covers(orders[found.value], tenant, now)
    ensures forall i :: 0 <= i < |orders| && Covers(orders[i], tenant, now) ==>
      found.Some? && orders[i].status.period.paidAt <= orders[found.value].status.period.paidAt
  {
    if orders == [] then None
    else
      var n := |orders| - 1;
      var before := CoveringOrder(orders[..n], tenant, now);
      var o := orders[n];
      if Covers(o, tenant, now)
         && (before == None || o.status.period.paidAt > orders[before.value].status.period.paidAt)
      then Some(n) else before
  }

  function PlanCovering(orders: seq<Order>, tenant: nat, now: int): Plan {
    var covering := CoveringOrder(orders, tenant, now);
    if covering.Some? then orders[covering.value].plan else Free
  }

  function IsRewardFor(tenant: nat): Order -> bool {
    (o: Order) => o.tenant == tenant && o.provider == Referral
  }

  /** How many free months the tenant was given for inviting friends. */
  function CountRewards(orders: seq<Order>, tenant: nat): nat {
    Count(orders, IsRewardFor(tenant))
  }

  function IsUseOf(code: string): Order -> bool {
    (o: Order) => o.promoCode == Some(code) && o.status.EverPaid()
  }

  /** How many orders that carry the code have ever been paid. */
  function CountUses(orders: seq<Order>, code: string): nat {
    Count(orders, IsUseOf(code))
  }

  function IsRewardedBy(referrer: nat): ReferralRow -> bool {
    (row: ReferralRow) => row.referrer == referrer && row.isRewarded
  }

  function CountRewarded(referrals: seq<ReferralRow>, referrer: nat): nat {
    Count(referrals, IsRewardedBy(referrer))
  }

  // ---- Checkout

  /** The order takes an early seat. */
  predicate IsSeat(o: Order) {
    o.isEarly && (o.status.Paid? || o.status.RefundRequested?)
  }

  /** Seats are counted in orders, not in tenants. */
  function CountEarlySeats(orders: seq<Order>): nat {
    Count(orders, (o: Order) => IsSeat(o))
  }

  predicate IsEarlyEligible(orders: seq<Order>, tenant: nat, earlySeats: int) {
    || (exists i :: 0 <= i < |orders| && PaidBy(orders[i], tenant) && orders[i].isEarly)
    || CountEarlySeats(orders) < earlySeats
  }

  datatype PromoUse = PromoUse(tenant: nat, plan: PaidPlan, months: Term, now: int)

  /** Every limit on the row allows the purchase, and it takes money off. */
  predicate IsUsable(row: Promo, use: PromoUse) {
    && (row.startsAt.Some? ==> row.startsAt.value <= use.now)
    && (row.endsAt.Some? ==> use.now < row.endsAt.value)
    && (row.maxUses.Some? ==> row.used < row.maxUses.value)
    && (row.tenant.Some? ==> row.tenant.value == use.tenant)
    && (row.planFilter.Some? ==> row.planFilter.value == use.plan)
    && (row.minMonths.Some? ==> row.minMonths.value <= use.months)
    && row.percentOff != 0
  }

  function ToDiscount(row: Promo): Discount {
    Discount(row.code, if row.isCampaign then Campaign else TypedCode, row.percentOff, row.months)
  }

  /** The row with this code. */
  function FindPromo(promos: seq<Promo>, code: string): (found: Option<nat>)
    ensures found.Some? ==> found.value < |promos| && promos[found.value].code == code
    ensures found == None ==> forall i :: 0 <= i < |promos| ==> promos[i].code != code
  {
    if promos == [] then None
    else
      var n := |promos| - 1;
      var before := FindPromo(promos[..n], code);
      if before.Some? then before else if promos[n].code == code then Some(n) else None
  }

  /** The discount is what some usable row offers. */
  predicate IsOffered(promos: seq<Promo>, d: Discount, use: PromoUse) {
    exists i :: 0 <= i < |promos| && IsUsable(promos[i], use) && d == ToDiscount(promos[i])
  }

  function UsableOne(promos: seq<Promo>, code: Option<string>, use: PromoUse): (ds: seq<Discount>)
    ensures forall d :: d in ds ==> IsOffered(promos, d, use) && Some(d.code) == code
  {
    var found := if code.Some? then FindPromo(promos, code.value) else None;
    if found.Some? && IsUsable(promos[found.value], use) then [ToDiscount(promos[found.value])] else []
  }

  function InsertByPercent(ds: seq<Discount>, d: Discount): (r: seq<Discount>)
    ensures forall x :: x in r <==> x in ds || x == d
  {
    if ds == [] || ds[0].percentOff < d.percentOff then [d] + ds
    else [ds[0]] + InsertByPercent(ds[1..], d)
  }

  /** The usable campaigns among the first `n` rows, best first. */
  function UsableCampaigns(promos: seq<Promo>, n: nat, use: PromoUse): (ds: seq<Discount>)
    requires n <= |promos|
    ensures forall d :: d in ds ==> IsOffered(promos, d, use)
    ensures forall i :: 0 <= i < n && promos[i].isCampaign && IsUsable(promos[i], use) ==> ToDiscount(promos[i]) in ds
  {
    if n == 0 then []
    else if promos[n - 1].isCampaign && IsUsable(promos[n - 1], use)
    then InsertByPercent(UsableCampaigns(promos, n - 1, use), ToDiscount(promos[n - 1]))
    else UsableCampaigns(promos, n - 1, use)
  }

  datatype Checkout = Checkout(
    tenant: nat, plan: PaidPlan, months: Term, currency: Currency, earlySeats: int,
    typedCode: Option<string>)

  datatype BillingError =
    | PromoCodeInvalid
    | RefundWindowClosed
    | NotFound
    | InternalError
    | ConstraintViolation

  /** What a checkout compares: the typed code's discount, the remembered one's, and every running campaign's. */
  function UsableDiscounts(s: State, input: Checkout, now: int): (r: Result<seq<Discount>, BillingError>)
    ensures r.Ok? ==>
      forall d :: d in r.value ==> IsOffered(s.promos, d, PromoUse(input.tenant, input.plan, input.months, now))
    ensures r.Ok? ==> forall i :: 0 <= i < |s.promos| && s.promos[i].isCampaign ==>
      (IsUsable(s.promos[i], PromoUse(input.tenant, input.plan, input.months, now)) ==>
        ToDiscount(s.promos[i]) in r.value)
  {
    var use := PromoUse(input.tenant, input.plan, input.months, now);
    var typed := UsableOne(s.promos, input.typedCode, use);
    if input.typedCode.Some? && typed == [] then Err(PromoCodeInvalid)
    else
      var acquired := if input.tenant < |s.tenants| then s.tenants[input.tenant].acquiredCode else None;
      Ok(typed + UsableOne(s.promos, acquired, use) + UsableCampaigns(s.promos, |s.promos|, use))
  }

  function CheckoutQuote(s: State, input: Checkout, now: int): Result<PriceQuote, BillingError> {
    var discounts := UsableDiscounts(s, input, now);
    if discounts.Err? then Err(discounts.error)
    else Ok(QuoteOf(QuoteInput(
      input.plan, input.months, input.currency,
      IsEarlyEligible(s.orders, input.tenant, input.earlySeats), discounts.value)))
  }

  function NewOrder(tenant: nat, q: PriceQuote): Order {
    Order(tenant, q.plan, q.months, q.amountMinor, q.currency, q.isEarly, q.appliedCode, Yookassa, Created)
  }

  /** The price is fixed in our row; the new order's identifier is its position. */
  function CreateOrder(s: State, input: Checkout, now: int): Result<State, BillingError> {
    var price := CheckoutQuote(s, input, now);
    if price.Err? then Err(price.error)
    else if input.tenant >= |s.tenants| then Err(ConstraintViolation)
    else Ok(s.(orders := s.orders + [NewOrder(input.tenant, price.value)]))
  }

  // ---- Payments

  datatype Notification = Notification(
    provider: Provider, eventKey: string, orderId: nat, isPaid: bool, paidAmountMinor: int)

  datatype Outcome = Applied | Duplicate | UnknownOrder | AmountMismatch | NotPaid

  function MarkPaid(orders: seq<Order>, id: nat, now: int): seq<Order>
    requires id < |orders|
  {
    var o := orders[id];
    var start := PaidUntil(orders, o.tenant, now);
    orders[id := o.(status := Paid(Period(now, start, Dates.AddMonths(start, o.months))))]
  }

  function SetPlan(tenants: seq<Tenant>, tenant: nat, plan: Plan): seq<Tenant> {
    if tenant < |tenants| then tenants[tenant := tenants[tenant].(plan := plan)] else tenants
  }

  function CountPromoUse(promos: seq<Promo>, code: Option<string>): seq<Promo> {
    var found := if code.Some? then FindPromo(promos, code.value) else None;
    if found.Some?
    then promos[found.value := promos[found.value].(used := promos[found.value].used + 1)]
    else promos
  }

  /** The referral of this friend that has not been rewarded yet. */
  function PendingReferral(referrals: seq<ReferralRow>, referred: nat): (found: Option<nat>)
    ensures found.Some? ==>
      && found.value < |referrals|
      && referrals[found.value].referred == referred && !referrals[found.value].isRewarded
    ensures found == None ==> forall i :: 0 <= i < |referrals| ==>
      !(referrals[i].referred == referred && !referrals[i].isRewarded)
  {
    if referrals == [] then None
    else
      var n := |referrals| - 1;
      var before := PendingReferral(referrals[..n], referred);
      if before.Some? then before
      else if referrals[n].referred == referred && !referrals[n].isRewarded then Some(n)
      else None
  }

  /** The free month: after the paid time the inviter has or, on Free, after its trial. */
  function RewardOrder(orders: seq<Order>, tenant: Tenant, referrer: nat, now: int): Order {
    var latest := LatestPaid(orders, referrer, now);
    var trialEnd := if tenant.trialEndsAt > now then tenant.trialEndsAt else now;
    var start := if latest.Some? then orders[latest.value].status.period.end else trialEnd;
    var plan: PaidPlan :=
      if latest.Some? then orders[latest.value].plan
      else if tenant.plan == Free then Starter else tenant.plan;
    Order(referrer, plan, 1, 0, RUB, false, None, Referral,
          Paid(Period(now, start, Dates.AddMonths(start, 1))))
  }

  function RewardReferrer(s: State, referred: nat, now: int): State {
    var row := PendingReferral(s.referrals, referred);
    if row == None then s
    else
      var referrer := s.referrals[row.value].referrer;
      var s1 := s.(referrals := s.referrals[row.value := s.referrals[row.value].(isRewarded := true)]);
      if CountRewards(s.orders, referrer) >= MAX_REFERRAL_MONTHS || referrer >= |s.tenants| then s1
      else
        var tenant := s.tenants[referrer];
        var reward := RewardOrder(s.orders, tenant, referrer, now);
        s1.(orders := s.orders + [reward],
            tenants := if tenant.plan == Free && reward.status.period.start <= now
                       then SetPlan(s.tenants, referrer, reward.plan) else s.tenants)
  }

  /** The partner the code belongs to. */
  function PartnerOfCode(s: State, code: string): (link: Option<nat>)
    ensures link.Some? ==> link.value < |s.partners|
  {
    var found := FindPromo(s.promos, code);
    var partner := if found.Some? then s.promos[found.value].partner else None;
    if partner.Some? && partner.value < |s.partners| then partner else None
  }

  /** The partner of the code the tenant remembers now. */
  function PartnerLink(s: State, tenant: nat): (link: Option<nat>)
    ensures link.Some? ==> link.value < |s.partners|
  {
    if tenant >= |s.tenants| || s.tenants[tenant].acquiredCode == None then None
    else PartnerOfCode(s, s.tenants[tenant].acquiredCode.value)
  }

  /** When the tenant's first still-paid order that is not a free month was paid; `now` if there is none. */
  function FirstPaidAt(orders: seq<Order>, tenant: nat, now: int): (first: int)
    ensures forall i :: 0 <= i < |orders| && PaidBy(orders[i], tenant) && orders[i].provider != Referral ==>
      first <= orders[i].status.period.paidAt
    ensures (exists i :: 0 <= i < |orders| && PaidBy(orders[i], tenant) && orders[i].provider != Referral
              && first == orders[i].status.period.paidAt)
      || (first == now && forall i :: 0 <= i < |orders| ==>
            !(PaidBy(orders[i], tenant) && orders[i].provider != Referral))
  {
    if orders == [] then now
    else
      var n := |orders| - 1;
      var o := orders[n];
      var before := FirstPaidAt(orders[..n], tenant, now);
      var none := forall i :: 0 <= i < n ==> !(PaidBy(orders[i], tenant) && orders[i].provider != Referral);
      if PaidBy(o, tenant) && o.provider != Referral && (none || o.status.period.paidAt < before)
      then o.status.period.paidAt else before
  }

  /** `Math.round(amount * percent / 100)`. */
  function ShareOf(amountMinor: int, percent: int): int {
    (2 * amountMinor * percent + 100) / 200
  }

  function RecordEarning(s: State, id: nat, now: int): State
    requires id < |s.orders|
  {
    var o := s.orders[id];
    var link := PartnerLink(s, o.tenant);
    if link == None || o.amountMinor == 0 then s
    else
      var partner := s.partners[link.value];
      if now >= Dates.AddMonths(FirstPaidAt(s.orders, o.tenant, now), partner.months) then s
      else if id in s.earnings then s
      else s.(earnings := s.earnings[id :=
        Earning(link.value, o.tenant, ShareOf(o.amountMinor, partner.percent), now)])
  }

  /** What a payment that matches its order does. */
  function Settle(s: State, id: nat, now: int): (s': State)
    requires id < |s.orders|
  {
    var o := s.orders[id];
    var paid := s.(orders := MarkPaid(s.orders, id, now),
                   tenants := SetPlan(s.tenants, o.tenant, o.plan),
                   promos := CountPromoUse(s.promos, o.promoCode));
    var rewarded := RewardReferrer(paid, o.tenant, now);
    RewardKeepsOrders(paid, o.tenant, now);
    RecordEarning(rewarded, id, now)
  }

  lemma RewardKeepsOrders(s: State, referred: nat, now: int)
    ensures s.orders <= RewardReferrer(s, referred, now).orders
  {
  }

  function ApplyNotification(s: State, n: Notification, now: int): (State, Outcome) {
    if (n.provider, n.eventKey) in s.events then (s, Duplicate)
    else
      var s1 := s.(events := s.events + {(n.provider, n.eventKey)});
      if n.orderId >= |s.orders| then (s1, UnknownOrder)
      else
        var o := s.orders[n.orderId];
        if o.status != Created then (s1, Duplicate)
        else if !n.isPaid then (s1.(orders := s.orders[n.orderId := o.(status := Failed)]), NotPaid)
        else if n.paidAmountMinor != o.amountMinor then (s1, AmountMismatch)
        else (Settle(s1, n.orderId, now), Applied)
  }

  datatype Grant = Grant(
    tenant: nat, plan: PaidPlan, months: Term, amountMinor: int, currency: Currency, isEarly: bool)

  function GrantOrder(g: Grant): Order {
    Order(g.tenant, g.plan, g.months, g.amountMinor, g.currency, g.isEarly, None, Manual, Created)
  }

  function GrantNotification(g: Grant, id: nat): Notification {
    Notification(Manual, "manual:" + Decimal.Print(id), id, true, g.amountMinor)
  }

  /** The order is inserted first and stays even when its notification is refused. */
  function GrantManualPayment(s: State, g: Grant, now: int): (State, Result<nat, BillingError>) {
    if g.tenant >= |s.tenants| then (s, Err(ConstraintViolation))
    else
      var id := |s.orders|;
      var (s', outcome) := ApplyNotification(
        s.(orders := s.orders + [GrantOrder(g)]), GrantNotification(g, id), now);
      (s', if outcome == Applied then Ok(id) else Err(InternalError))
  }

  // ---- Refunds

  predicate IsRefundable(o: Order, tenant: nat, now: int) {
    && PaidBy(o, tenant)
    && (o.provider == Yookassa || o.provider == Manual)
    && o.status.period.paidAt > now - REFUND_WINDOW_MS
  }

  /** The latest money payment inside the refund window. */
  function LatestRefundable(orders: seq<Order>, tenant: nat, now: int): (found: Option<nat>)
    ensures found.Some? ==> found.value < |orders| && IsRefundable(orders[found.value], tenant, now)
    ensures forall i :: 0 <= i < |orders| && IsRefundable(orders[i], tenant, now) ==>
      found.Some? && orders[i].status.period.paidAt <= orders[found.value].status.period.paidAt
  {
    if orders == [] then None
    else
      var n := |orders| - 1;
      var before := LatestRefundable(orders[..n], tenant, now);
      var o := orders[n];
      if IsRefundable(o, tenant, now)
         && (before == None || o.status.period.paidAt > orders[before.value].status.period.paidAt)
      then Some(n) else before
  }

  function RequestRefund(s: State, tenant: nat, now: int): (State, Result<nat, BillingError>) {
    var found := LatestRefundable(s.orders, tenant, now);
    if found == None then (s, Err(RefundWindowClosed))
    else
      var o := s.orders[found.value];
      (s.(orders := s.orders[found.value := o.(status := RefundRequested(o.status.period))]), Ok(found.value))
  }

  function ConfirmRefund(s: State, id: nat, now: int, freeLimit: nat): (State, Result<(), BillingError>) {
    if id >= |s.orders| || !s.orders[id].status.RefundRequested? then (s, Err(NotFound))
    else
      var o := s.orders[id];
      var s1 := s.(orders := s.orders[id := o.(status := Refunded(o.status.period.(end := now)))]);
      (SettleTenantPlan(s1, o.tenant, now, freeLimit), Ok(()))
  }

  // ---- Plans and targets

  predicate IsActive(t: Target, tenant: nat) {
    t.tenant == tenant && !t.isDeleted && t.pausedAt == None && !t.isSelf
  }

  /** Creation order; rows created together are taken in table order. */
  predicate Older(targets: seq<Target>, a: nat, b: nat)
    requires a < |targets| && b < |targets|
  {
    targets[a].createdAt < targets[b].createdAt || (targets[a].createdAt == targets[b].createdAt && a < b)
  }

  predicate AllBelow(ids: seq<nat>, n: nat) {
    forall i :: 0 <= i < |ids| ==> ids[i] < n
  }

  function InsertByAge(targets: seq<Target>, sorted: seq<nat>, id: nat): (r: seq<nat>)
    requires AllBelow(sorted, |targets|) && id < |targets|
    ensures AllBelow(r, |targets|)
  {
    if sorted == [] || Older(targets, id, sorted[0]) then [id] + sorted
    else [sorted[0]] + InsertByAge(targets, sorted[1..], id)
  }

  /** The tenant's active targets among the first `n` rows, oldest first. */
  function ActiveByAge(targets: seq<Target>, tenant: nat, n: nat): (ids: seq<nat>)
    requires n <= |targets|
    ensures AllBelow(ids, |targets|)
  {
    if n == 0 then []
    else if IsActive(targets[n - 1], tenant)
    then InsertByAge(targets, ActiveByAge(targets, tenant, n - 1), n - 1)
    else ActiveByAge(targets, tenant, n - 1)
  }

  /** All but the `limit` oldest active targets get `now` as their pause; every other row stays. */
  function PauseExcess(targets: seq<Target>, tenant: nat, limit: nat, now: int): (targets': seq<Target>)
    ensures |targets'| == |targets|
  {
    var active := ActiveByAge(targets, tenant, |targets|);
    var excess := if |active| <= limit then [] else active[limit..];
    seq(|targets|, i requires 0 <= i < |targets| =>
      if i in excess then targets[i].(pausedAt := Some(now)) else targets[i])
  }

  function SettleTenantPlan(s: State, tenant: nat, now: int, freeLimit: nat): State {
    var plan := PlanCovering(s.orders, tenant, now);
    s.(tenants := SetPlan(s.tenants, tenant, plan),
       targets := if plan == Free then PauseExcess(s.targets, tenant, freeLimit, now) else s.targets)
  }

  /** A live tenant with an order that is paid or was refunded. */
  predicate HasPaidHistory(s: State, tenant: nat) {
    && tenant < |s.tenants| && !s.tenants[tenant].isDeleted
    && exists i :: 0 <= i < |s.orders| && s.orders[i].tenant == tenant
        && (s.orders[i].status.Paid? || s.orders[i].status.Refunded?)
  }

  /** The daily job on the first `n` tenants; the second result is who went back to Free. */
  function ExpireFirst(s: State, n: nat, now: int, freeLimit: nat): (r: (State, seq<nat>))
    requires n <= |s.tenants|
    ensures |r.0.tenants| == |s.tenants| && r.0.orders == s.orders
  {
    if n == 0 then (s, [])
    else
      var (before, downgraded) := ExpireFirst(s, n - 1, now, freeLimit);
      var tenant := n - 1;
      if !HasPaidHistory(s, tenant) || PlanCovering(s.orders, tenant, now) == s.tenants[tenant].plan
      then (before, downgraded)
      else
        (SettleTenantPlan(before, tenant, now, freeLimit),
         if PlanCovering(s.orders, tenant, now) == Free then downgraded + [tenant] else downgraded)
  }

  function ExpirePaidPlans(s: State, now: int, freeLimit: nat): (State, seq<nat>) {
    ExpireFirst(s, |s.tenants|, now, freeLimit)
  }

  // ---- How tenants arrive

  function SignUp(s: State, now: int): State {
    s.(tenants := s.tenants + [Tenant(Free, now, now, Organic, None, None, None, false)])
  }

  function AddTarget(s: State, target: Target): Result<State, BillingError> {
    if target.tenant >= |s.tenants| then Err(ConstraintViolation)
    else Ok(s.(targets := s.targets + [target]))
  }

  function SoftDelete(s: State, tenant: nat): State {
    if tenant >= |s.tenants| then s
    else s.(tenants := s.tenants[tenant := s.tenants[tenant].(isDeleted := true)])
  }

  predicate CodeTaken(tenants: seq<Tenant>, code: string) {
    exists i :: 0 <= i < |tenants| && tenants[i].referralCode == Some(code)
  }

  /** The tenant's invite code: kept once made, else the first drawn code nobody has. Three draws at most. */
  function ReferralCodeFor(s: State, tenant: nat, draws: seq<string>): (State, Result<string, BillingError>)
    decreases |draws|
  {
    if tenant < |s.tenants| && s.tenants[tenant].referralCode.Some? then
      (s, Ok(s.tenants[tenant].referralCode.value))
    else if draws == [] then (s, Err(InternalError))
    else if tenant >= |s.tenants| || CodeTaken(s.tenants, draws[0]) then ReferralCodeFor(s, tenant, draws[1..])
    else
      (s.(tenants := s.tenants[tenant := s.tenants[tenant].(referralCode := Some(draws[0]))]), Ok(draws[0]))
  }

  /** The live tenant that owns the code. */
  function FindReferrer(tenants: seq<Tenant>, code: Option<string>): (found: Option<nat>)
    ensures found.Some? ==>
      && found.value < |tenants|
      && code.Some? && tenants[found.value].referralCode == code && !tenants[found.value].isDeleted
    ensures found == None ==> forall i :: 0 <= i < |tenants| ==>
      code == None || tenants[i].referralCode != code || tenants[i].isDeleted
  {
    if tenants == [] || code == None then None
    else
      var n := |tenants| - 1;
      var before := FindReferrer(tenants[..n], code);
      if before.Some? then before
      else if tenants[n].referralCode == code && !tenants[n].isDeleted then Some(n)
      else None
  }

  datatype Acquisition = Acquisition(
    tenant: nat, referralCode: Option<string>, promoCode: Option<string>,
    // The tenants that have a member with the new account's email.
    sameEmail: set<nat>)

  predicate IsFresh(s: State, tenant: nat, now: int) {
    && tenant < |s.tenants|
    && s.tenants[tenant].acquiredVia == Organic
    && now - s.tenants[tenant].createdAt <= DAY_MS
  }

  predicate AlreadyReferred(referrals: seq<ReferralRow>, tenant: nat) {
    exists i :: 0 <= i < |referrals| && referrals[i].referred == tenant
  }

  function RecordAcquisition(s: State, input: Acquisition, now: int): (State, Result<AcquiredVia, BillingError>) {
    if !IsFresh(s, input.tenant, now) then (s, Ok(Organic))
    else
      var tenant := s.tenants[input.tenant];
      var referrer := FindReferrer(s.tenants, input.referralCode);
      if referrer.Some? && referrer.value != input.tenant && referrer.value !in input.sameEmail then
        if AlreadyReferred(s.referrals, input.tenant) then (s, Err(ConstraintViolation))
        else
          (s.(referrals := s.referrals + [ReferralRow(referrer.value, input.tenant, false)],
              tenants := s.tenants[input.tenant := tenant.(
                acquiredVia := ViaReferral, trialEndsAt := tenant.createdAt + REFERRAL_TRIAL_MS)]),
           Ok(ViaReferral))
      else if input.promoCode.Some? then
        (s.(tenants := s.tenants[input.tenant := tenant.(
              acquiredVia := ViaCode, acquiredCode := input.promoCode)]), Ok(ViaCode))
      else (s, Ok(Organic))
  }

  // ---- Codes

  predicate HasPaidOrder(orders: seq<Order>, tenant: nat) {
    exists i :: 0 <= i < |orders| && PaidBy(orders[i], tenant)
  }

  predicate IsTrialCode(promos: seq<Promo>, code: string, now: int) {
    var found := FindPromo(promos, code);
    && found.Some?
    && promos[found.value].trialDays.Some?
    && (promos[found.value].endsAt.Some? ==> now < promos[found.value].endsAt.value)
  }

  function RedeemTrialCode(s: State, tenant: nat, code: string, now: int): (State, Result<int, BillingError>) {
    if !IsTrialCode(s.promos, code, now) then (s, Err(PromoCodeInvalid))
    else if tenant >= |s.tenants| || HasPaidOrder(s.orders, tenant)
            || s.tenants[tenant].acquiredCode == Some(code) then (s, Err(PromoCodeInvalid))
    else
      var row := s.promos[FindPromo(s.promos, code).value];
      var before := s.tenants[tenant];
      var extended := now + row.trialDays.value * DAY_MS;
      var trialEndsAt := if extended > before.trialEndsAt then extended else before.trialEndsAt;
      (s.(tenants := s.tenants[tenant := before.(
            trialEndsAt := trialEndsAt, acquiredVia := ViaCode, acquiredCode := Some(code))]),
       Ok(trialEndsAt))
  }

  /** A new code; the unique index refuses one that exists, and uses start at zero. */
  function AddPromo(s: State, row: Promo): Result<State, BillingError> {
    if FindPromo(s.promos, row.code).Some? then Err(ConstraintViolation)
    else Ok(s.(promos := s.promos + [row.(used := 0)]))
  }

  function WinbackRow(code: string, tenant: nat, now: int): Promo {
    Promo(code, false, 40, Some(2), None, None, None, None, Some(now + WINBACK_VALID_MS), Some(1), 0,
          None, Some(tenant))
  }

  /** A personal code, at most once per tenant; a clash of codes rolls the mark back. */
  function IssueWinbackCode(
    s: State, tenant: nat, code: string, now: int): (State, Result<Option<string>, BillingError>)
  {
    if tenant >= |s.tenants| || s.tenants[tenant].winbackSentAt.Some? then (s, Ok(None))
    else
      var marked := s.(tenants := s.tenants[tenant := s.tenants[tenant].(winbackSentAt := Some(now))]);
      var added := AddPromo(marked, WinbackRow(code, tenant, now));
      if added.Err? then (s, Err(added.error)) else (added.value, Ok(Some(code)))
  }

  function PartnerRow(code: string, partner: nat): Promo {
    Promo(code, false, 20, Some(3), None, None, None, None, None, None, 0, Some(partner), None)
  }

  function AddPartner(s: State, code: string, partner: Partner): Result<State, BillingError> {
    AddPromo(s.(partners := s.partners + [partner]), PartnerRow(code, |s.partners|))
  }
}
