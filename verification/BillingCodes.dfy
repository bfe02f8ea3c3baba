/** Referrals, promo codes, win-back codes and partners. */
module BillingCodes {
  import opened Wrappers
  import opened Pricing
  import opened Sequences
  import opened Billing
  import opened BillingInvariants
  import opened BillingRuns
  import Dates

  // ---- Referrals

  /**
   * In every reachable state each friend has one referral row and did not
   * invite itself, free months number at most twelve and at most the friends
   * who paid, and each code's uses are its orders ever paid.
   */
  lemma ReferralsAndUsesAreBounded(trace: seq<Event>, freeLimit: nat)
    ensures var s := Run(EMPTY, trace, freeLimit);
      && (forall i, j :: 0 <= i < j < |s.referrals| ==> s.referrals[i].referred != s.referrals[j].referred)
      && (forall i :: 0 <= i < |s.referrals| ==> s.referrals[i].referrer != s.referrals[i].referred)
      && (forall t: nat :: CountRewards(s.orders, t) <= 12
                        && CountRewards(s.orders, t) <= CountRewarded(s.referrals, t))
      && (forall i :: 0 <= i < |s.promos| ==> s.promos[i].used == CountUses(s.orders, s.promos[i].code))
  {
    hide Run, CountRewards, CountRewarded, CountUses;
    ReachableIsValid(trace, freeLimit);
  }

  /** The tenant is no older than a day and has no source yet. */
  predicate IsNewcomer(s: State, tenant: nat, now: int) {
    && tenant < |s.tenants| && s.tenants[tenant].acquiredVia == Organic
    && now <= s.tenants[tenant].createdAt + 86_400_000
  }

  /** The newcomer's link is that of another, live tenant without a member of its email. */
  predicate Invites(s: State, input: Acquisition, referrer: nat) {
    && referrer < |s.tenants| && referrer != input.tenant && referrer !in input.sameEmail
    && !s.tenants[referrer].isDeleted
    && s.tenants[referrer].referralCode.Some? && s.tenants[referrer].referralCode == input.referralCode
  }

  /**
   * A newcomer invited by a friend gets a referral row and a trial of four
   * weeks from its first day; one that was not keeps the promo code it came
   * with, unchecked; nobody else is changed.
   */
  lemma AcquisitionExactly(s: State, input: Acquisition, now: int)
    requires Valid(s)
    ensures var (s', via) := RecordAcquisition(s, input, now);
      && (!IsNewcomer(s, input.tenant, now) ==> (s', via) == (s, Ok(Organic)))
      && (IsNewcomer(s, input.tenant, now) ==>
            var t := s.tenants[input.tenant];
            && (forall referrer: nat :: Invites(s, input, referrer) ==>
                  (s', via) == (
                    s.(referrals := s.referrals + [ReferralRow(referrer, input.tenant, false)],
                       tenants := s.tenants[input.tenant :=
                         t.(acquiredVia := ViaReferral, trialEndsAt := t.createdAt + 28 * 86_400_000)]),
                    Ok(ViaReferral)))
            && ((forall referrer: nat :: !Invites(s, input, referrer)) ==>
                  (s', via) == if input.promoCode == None then (s, Ok(Organic)) else (
                    s.(tenants := s.tenants[input.tenant :=
                         t.(acquiredVia := ViaCode, acquiredCode := input.promoCode)]),
                    Ok(ViaCode))))
  {
    hide PeriodsOk, TermsOk, OrdersOk, PromosOk, RewardsOk, EarningsOk, FindReferrer;
    var found := FindReferrer(s.tenants, input.referralCode);
    if found.Some? {
      assert forall referrer: nat :: Invites(s, input, referrer) ==> referrer == found.value;
      if found.value != input.tenant && found.value !in input.sameEmail {
        assert Invites(s, input, found.value);
      }
    }
  }

  /** A new account's source is recorded without ever hitting the unique index, and only once. */
  lemma AcquisitionHappensOnce(s: State, input: Acquisition, now: int, again: Acquisition, later: int)
    requires Valid(s) && again.tenant == input.tenant
    ensures RecordAcquisition(s, input, now).1.Ok?
    ensures var (s', via) := RecordAcquisition(s, input, now);
      via != Ok(Organic) ==> RecordAcquisition(s', again, later) == (s', Ok(Organic))
  {
    hide PeriodsOk, TermsOk, OrdersOk, PromosOk, RewardsOk, EarningsOk, CodesOk, FindReferrer;
  }

  /**
   * The friend's payment rewards its row once: a second payment finds nothing
   * to do, and the inviter gains exactly one free month unless it already has
   * twelve.
   */
  lemma FriendRewardsOnce(s: State, friend: nat, now: int, later: int)
    requires Valid(s)
    ensures var s' := RewardReferrer(s, friend, now);
      && RewardReferrer(s', friend, later) == s'
      && (forall t: nat :: CountRewards(s'.orders, t) == CountRewards(s.orders, t)
            + (if InvitedBy(s, friend) == Some(t) && CountRewards(s.orders, t) < 12 then 1 else 0))
  {
    hide PeriodsOk, TermsOk, OrdersOk, PromosOk, RewardsOk, EarningsOk, CodesOk, RewardOrder, Count;
    var row := PendingReferral(s.referrals, friend);
    if row.Some? {
      var referrer := s.referrals[row.value].referrer;
      var s' := RewardReferrer(s, friend, now);
      assert PendingReferral(s'.referrals, friend) == None;
      if CountRewards(s.orders, referrer) < MAX_REFERRAL_MONTHS {
        var reward := RewardOrder(s.orders, s.tenants[referrer], referrer, now);
        RewardIsForReferrer(s.orders, s.tenants[referrer], referrer, now);
        forall t: nat
          ensures CountRewards(s'.orders, t) == CountRewards(s.orders, t) + if t == referrer then 1 else 0
        {
          CountAppend(s.orders, reward, IsRewardFor(t));
        }
      }
    }
  }

  lemma RewardIsForReferrer(orders: seq<Order>, tenant: Tenant, referrer: nat, now: int)
    ensures RewardOrder(orders, tenant, referrer, now).tenant == referrer
    ensures RewardOrder(orders, tenant, referrer, now).provider == Referral
  {
  }

  /** Who invited this friend, if the reward is still due. */
  function InvitedBy(s: State, friend: nat): Option<nat> {
    var row := PendingReferral(s.referrals, friend);
    if row.Some? then Some(s.referrals[row.value].referrer) else None
  }

  /** No tenant has the invite code. */
  predicate IsUnused(tenants: seq<Tenant>, code: string) {
    forall i :: 0 <= i < |tenants| ==> tenants[i].referralCode != Some(code)
  }

  /**
   * A tenant that has an invite code keeps it. One that has none gets the first
   * draw that nobody has, and only when every draw is somebody's, or the tenant
   * is not known, does the answer fail.
   */
  lemma {:induction false} ReferralCodeExactly(s: State, tenant: nat, draws: seq<string>)
    ensures var (s', r) := ReferralCodeFor(s, tenant, draws);
      && (r.Err? <==>
            tenant >= |s.tenants| ||
            (s.tenants[tenant].referralCode == None && forall k :: 0 <= k < |draws| ==> !IsUnused(s.tenants, draws[k])))
      && (r.Err? ==> (s', r) == (s, Err(InternalError)))
      && (r.Ok? && s.tenants[tenant].referralCode.Some? ==> (s', Some(r.value)) == (s, s.tenants[tenant].referralCode))
      && (r.Ok? && s.tenants[tenant].referralCode == None ==>
            && s' == s.(tenants := s.tenants[tenant := s.tenants[tenant].(referralCode := Some(r.value))])
            && IsFirstUnused(s.tenants, draws, r.value))
    decreases |draws|
  {
    if tenant < |s.tenants| && s.tenants[tenant].referralCode == None && draws != [] {
      assert IsUnused(s.tenants, draws[0]) <==> !CodeTaken(s.tenants, draws[0]);
      if IsUnused(s.tenants, draws[0]) {
        assert IsFirstUnused(s.tenants, draws, draws[0]);
      } else {
        ReferralCodeExactly(s, tenant, draws[1..]);
        LaterUnused(s.tenants, draws);
      }
    } else if tenant >= |s.tenants| && draws != [] {
      ReferralCodeExactly(s, tenant, draws[1..]);
    }
  }

  /** The code is a draw nobody has, and every draw before it is somebody's. */
  ghost predicate IsFirstUnused(tenants: seq<Tenant>, draws: seq<string>, code: string) {
    exists k :: 0 <= k < |draws| && draws[k] == code && IsUnused(tenants, draws[k])
      && forall j :: 0 <= j < k ==> !IsUnused(tenants, draws[j])
  }

  lemma LaterUnused(tenants: seq<Tenant>, draws: seq<string>)
    requires draws != [] && !IsUnused(tenants, draws[0])
    ensures forall code :: IsFirstUnused(tenants, draws[1..], code) ==> IsFirstUnused(tenants, draws, code)
    ensures (forall k :: 0 <= k < |draws| ==> !IsUnused(tenants, draws[k])) <==>
      forall k :: 0 <= k < |draws[1..]| ==> !IsUnused(tenants, draws[1..][k])
  {
    hide IsUnused;
    forall code | IsFirstUnused(tenants, draws[1..], code)
      ensures IsFirstUnused(tenants, draws, code)
    {
      var k :| 0 <= k < |draws[1..]| && draws[1..][k] == code && IsUnused(tenants, draws[1..][k])
        && forall j :: 0 <= j < k ==> !IsUnused(tenants, draws[1..][j]);
      assert forall j :: 0 < j < k + 1 ==> draws[j] == draws[1..][j - 1];
      assert draws[k + 1] == code;
    }
    assert forall k :: 0 < k < |draws| ==> draws[k] == draws[1..][k - 1];
  }

  /** An invite code belongs to one tenant for good: asking again, with any draws, answers the same. */
  lemma ReferralCodeIsStable(
    s: State, tenant: nat, draws: seq<string>, trace: seq<Event>, freeLimit: nat, again: seq<string>)
    requires Valid(s) && ReferralCodeFor(s, tenant, draws).1.Ok?
    ensures var (s', code) := ReferralCodeFor(s, tenant, draws);
      var later := Run(s', trace, freeLimit);
      && ReferralCodeFor(later, tenant, again) == (later, code)
      && forall t :: 0 <= t < |later.tenants| && t != tenant ==>
          later.tenants[t].referralCode != Some(code.value)
  {
    hide Valid, Follows, Run;
    var (s', code) := ReferralCodeFor(s, tenant, draws);
    KeepsOnReferralCode(s, tenant, draws);
    CodeIsStored(s, tenant, draws);
    RunKeeps(s', trace, freeLimit);
    CodeStays(s', Run(s', trace, freeLimit), tenant);
  }

  lemma {:induction false} CodeIsStored(s: State, tenant: nat, draws: seq<string>)
    requires ReferralCodeFor(s, tenant, draws).1.Ok?
    ensures var (s', code) := ReferralCodeFor(s, tenant, draws);
      tenant < |s'.tenants| && s'.tenants[tenant].referralCode == Some(code.value)
    decreases |draws|
  {
    if draws != [] && (tenant >= |s.tenants|
        || (s.tenants[tenant].referralCode == None && CodeTaken(s.tenants, draws[0]))) {
      CodeIsStored(s, tenant, draws[1..]);
    }
  }

  lemma CodeStays(s: State, later: State, tenant: nat)
    requires Follows(s, later) && Valid(later)
    requires tenant < |s.tenants| && s.tenants[tenant].referralCode.Some?
    ensures tenant < |later.tenants| && later.tenants[tenant].referralCode == s.tenants[tenant].referralCode
    ensures forall t :: 0 <= t < |later.tenants| && t != tenant ==>
      later.tenants[t].referralCode != s.tenants[tenant].referralCode
  {
    assert TenantFollows(s.tenants[tenant], later.tenants[tenant]);
  }

  // ---- Win-back

  /**
   * A code is issued, and the tenant marked, exactly when it was never marked
   * and the code is new; otherwise nothing changes.
   */
  lemma WinbackDecides(s: State, tenant: nat, code: string, now: int)
    ensures var (s', r) := IssueWinbackCode(s, tenant, code, now);
      && (r == Ok(None) <==> tenant >= |s.tenants| || s.tenants[tenant].winbackSentAt.Some?)
      && (r.Err? <==> r != Ok(None) && exists i :: 0 <= i < |s.promos| && s.promos[i].code == code)
      && (r.Err? ==> r == Err(ConstraintViolation))
      && (r.Err? || r == Ok(None) ==> s' == s)
      && (r.Ok? && r != Ok(None) ==>
            && r == Ok(Some(code)) && |s'.promos| == |s.promos| + 1 && s'.promos[|s.promos|].code == code
            && s' == s.(tenants := s.tenants[tenant := s.tenants[tenant].(winbackSentAt := Some(now))],
                        promos := s.promos + [s'.promos[|s.promos|]]))
  {
    hide FindPromo;
  }

  /** After a win-back code was issued no run lets the tenant have a second. */
  lemma WinbackOnce(
    s: State, tenant: nat, code: string, now: int, trace: seq<Event>, freeLimit: nat, again: string, later: int)
    requires Valid(s) && IssueWinbackCode(s, tenant, code, now).1 == Ok(Some(code))
    ensures var s' := Run(IssueWinbackCode(s, tenant, code, now).0, trace, freeLimit);
      IssueWinbackCode(s', tenant, again, later) == (s', Ok(None))
  {
    hide Valid, Follows, Run, AddPromo;
    var issued := IssueWinbackCode(s, tenant, code, now).0;
    KeepsOnWinback(s, tenant, code, now);
    assert tenant < |issued.tenants| && issued.tenants[tenant].winbackSentAt == Some(now) by {
      AddPromoKeepsTenants(s.(tenants := s.tenants[tenant := s.tenants[tenant].(winbackSentAt := Some(now))]),
                           WinbackRow(code, tenant, now));
    }
    RunKeeps(issued, trace, freeLimit);
    MarkStays(issued, Run(issued, trace, freeLimit), tenant);
  }

  lemma AddPromoKeepsTenants(s: State, row: Promo)
    ensures AddPromo(s, row).Ok? ==> AddPromo(s, row).value.tenants == s.tenants
  {
  }

  lemma MarkStays(s: State, later: State, tenant: nat)
    requires Follows(s, later) && tenant < |s.tenants| && s.tenants[tenant].winbackSentAt.Some?
    ensures tenant < |later.tenants| && later.tenants[tenant].winbackSentAt == s.tenants[tenant].winbackSentAt
  {
    assert TenantFollows(s.tenants[tenant], later.tenants[tenant]);
  }

  // ---- Partners

  /**
   * In every reachable state an earning is the partner's share, rounded half
   * up, of one money order that was paid, dated when it was paid.
   */
  lemma EarningsFollowPayments(trace: seq<Event>, freeLimit: nat, id: nat)
    requires id in Run(EMPTY, trace, freeLimit).earnings
    ensures var s := Run(EMPTY, trace, freeLimit);
      && id < |s.orders| && s.orders[id].status.EverPaid() && s.orders[id].amountMinor != 0
      && s.earnings[id].tenant == s.orders[id].tenant
      && s.earnings[id].createdAt == s.orders[id].status.period.paidAt
      && s.earnings[id].partner < |s.partners|
      && (var exact := s.orders[id].amountMinor * s.partners[s.earnings[id].partner].percent;
          exact - 50 < 100 * s.earnings[id].amountMinor <= exact + 50)
  {
    hide Run;
    ReachableIsValid(trace, freeLimit);
    var s := Run(EMPTY, trace, freeLimit);
    RoundedShare(s.orders[id].amountMinor, s.partners[s.earnings[id].partner].percent);
  }

  lemma RoundedShare(amountMinor: int, percent: int)
    ensures amountMinor * percent - 50 < 100 * ShareOf(amountMinor, percent) <= amountMinor * percent + 50
  {
    var exact := amountMinor * percent;
    assert ShareOf(amountMinor, percent) == (2 * exact + 100) / 200;
  }

  /**
   * The partner's months run from the first payment that is still paid. So
   * when a payment was refunded the window starts again: the next payment
   * earns although the partner's months after the refunded one are over.
   */
  lemma PartnerWindowRestarts(s: State, refunded: nat, id: nat, now: int)
    requires id < |s.orders| && id !in s.earnings
    requires s.orders[id].status.Paid? && s.orders[id].status.period.paidAt == now
    requires s.orders[id].provider != Referral && s.orders[id].amountMinor != 0
    requires PartnerLink(s, s.orders[id].tenant).Some?
    requires s.partners[PartnerLink(s, s.orders[id].tenant).value].months >= 1
    requires refunded < |s.orders| && s.orders[refunded].tenant == s.orders[id].tenant
    requires s.orders[refunded].status.Refunded? && s.orders[refunded].provider != Referral
    requires Dates.AddMonths(s.orders[refunded].status.period.paidAt,
                             s.partners[PartnerLink(s, s.orders[id].tenant).value].months) <= now
    requires forall i :: 0 <= i < |s.orders| && i != id && PaidBy(s.orders[i], s.orders[id].tenant) ==>
      s.orders[i].provider == Referral
    ensures id in RecordEarning(s, id, now).earnings
  {
    hide PartnerLink, Dates.AddMonths;
    var tenant := s.orders[id].tenant;
    var first := FirstPaidAt(s.orders, tenant, now);
    assert PaidBy(s.orders[id], tenant);
    assert first == now;
    Dates.AddMonthsLater(first, s.partners[PartnerLink(s, tenant).value].months);
  }
}
