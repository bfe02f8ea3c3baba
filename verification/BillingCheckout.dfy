/** What a checkout charges and when it is refused, in the fields of its tables. */
module BillingCheckout {
  import opened Wrappers
  import opened Pricing
  import opened Sequences
  import opened Billing
  import opened BillingInvariants

  // ---- Which rows a checkout may use

  /** Every limit on the row allows the purchase, and the row takes money off. */
  predicate Allows(row: Promo, input: Checkout, now: int) {
    && row.percentOff != 0
    && (row.startsAt == None || now >= row.startsAt.value)
    && (row.endsAt == None || now < row.endsAt.value)
    && (row.maxUses == None || row.maxUses.value > row.used)
    && (row.tenant == None || row.tenant == Some(input.tenant))
    && (row.planFilter == None || row.planFilter == Some(input.plan))
    && (row.minMonths == None || input.months >= row.minMonths.value)
  }

  /** A campaign comes to everyone, any other row to who types its code or came with it. */
  predicate ComesTo(row: Promo, s: State, input: Checkout) {
    || row.isCampaign
    || input.typedCode == Some(row.code)
    || (input.tenant < |s.tenants| && s.tenants[input.tenant].acquiredCode == Some(row.code))
  }

  predicate IsOpen(row: Promo, s: State, input: Checkout, now: int) {
    ComesTo(row, s, input) && Allows(row, input, now)
  }

  lemma AllowsIsUsable(row: Promo, input: Checkout, now: int)
    ensures Allows(row, input, now) <==> IsUsable(row, PromoUse(input.tenant, input.plan, input.months, now))
  {
  }

  lemma UniqueCodes(s: State)
    requires Valid(s)
    ensures forall i, j :: 0 <= i < j < |s.promos| ==> s.promos[i].code != s.promos[j].code
  {
  }

  lemma UsableOneIs(promos: seq<Promo>, code: string, i: nat, use: PromoUse)
    requires i < |promos| && promos[i].code == code
    requires forall i, j :: 0 <= i < j < |promos| ==> promos[i].code != promos[j].code
    ensures UsableOne(promos, Some(code), use) == if IsUsable(promos[i], use) then [ToDiscount(promos[i])] else []
  {
    hide IsUsable;
    FindPromoIs(promos, i);
  }

  lemma UsableOneUnknown(promos: seq<Promo>, code: string, use: PromoUse)
    requires forall i :: 0 <= i < |promos| && promos[i].code == code ==> !IsUsable(promos[i], use)
    ensures UsableOne(promos, Some(code), use) == []
  {
    hide IsUsable;
  }

  /** The row offers exactly this discount. */
  predicate Offers(row: Promo, d: Discount) {
    && d.code == row.code && d.percentOff == row.percentOff && d.months == row.months
    && (d.kind == Campaign <==> row.isCampaign)
  }

  /** A checkout compares exactly the discounts of the open rows. */
  lemma OpenRowsAreCompared(s: State, input: Checkout, now: int)
    requires Valid(s) && UsableDiscounts(s, input, now).Ok?
    ensures var ds := UsableDiscounts(s, input, now).value;
      && (forall i :: 0 <= i < |s.promos| && IsOpen(s.promos[i], s, input, now) ==>
            exists k :: 0 <= k < |ds| && Offers(s.promos[i], ds[k]))
      && (forall d :: d in ds ==>
            exists i :: 0 <= i < |s.promos| && IsOpen(s.promos[i], s, input, now) && Offers(s.promos[i], d))
  {
    hide Valid, UsableDiscounts, IsOpen, Offers;
    var ds := UsableDiscounts(s, input, now).value;
    forall i | 0 <= i < |s.promos| && IsOpen(s.promos[i], s, input, now)
      ensures exists k :: 0 <= k < |ds| && Offers(s.promos[i], ds[k])
    {
      OpenRowIsCompared(s, input, now, i);
    }
    forall d | d in ds
      ensures exists i :: 0 <= i < |s.promos| && IsOpen(s.promos[i], s, input, now) && Offers(s.promos[i], d)
    {
      ComparedIsOpen(s, input, now, d);
    }
  }

  lemma OpenRowIsCompared(s: State, input: Checkout, now: int, i: nat)
    requires Valid(s) && UsableDiscounts(s, input, now).Ok?
    requires i < |s.promos| && IsOpen(s.promos[i], s, input, now)
    ensures var ds := UsableDiscounts(s, input, now).value;
      exists k :: 0 <= k < |ds| && Offers(s.promos[i], ds[k])
  {
    hide Valid, IsUsable, UsableOne, UsableCampaigns, Allows;
    var use := PromoUse(input.tenant, input.plan, input.months, now);
    AllowsIsUsable(s.promos[i], input, now);
    UniqueCodes(s);
    UsableOneIs(s.promos, s.promos[i].code, i, use);
    var ds := UsableDiscounts(s, input, now).value;
    assert ToDiscount(s.promos[i]) in ds;
    var k :| 0 <= k < |ds| && ds[k] == ToDiscount(s.promos[i]);
    assert Offers(s.promos[i], ds[k]);
  }

  lemma ComparedIsOpen(s: State, input: Checkout, now: int, d: Discount)
    requires UsableDiscounts(s, input, now).Ok? && d in UsableDiscounts(s, input, now).value
    ensures exists i :: 0 <= i < |s.promos| && IsOpen(s.promos[i], s, input, now) && Offers(s.promos[i], d)
  {
    hide IsUsable, UsableOne, UsableCampaigns, Allows;
    var use := PromoUse(input.tenant, input.plan, input.months, now);
    var acquired := if input.tenant < |s.tenants| then s.tenants[input.tenant].acquiredCode else None;
    assert || d in UsableOne(s.promos, input.typedCode, use) || d in UsableOne(s.promos, acquired, use)
           || d in UsableCampaigns(s.promos, |s.promos|, use);
    var i: nat;
    if d in UsableCampaigns(s.promos, |s.promos|, use) {
      CampaignsAreCampaigns(s.promos, |s.promos|, use);
      i :| i < |s.promos| && IsUsable(s.promos[i], use) && d == ToDiscount(s.promos[i]) && s.promos[i].isCampaign;
    } else {
      assert IsOffered(s.promos, d, use);
      i :| i < |s.promos| && IsUsable(s.promos[i], use) && d == ToDiscount(s.promos[i]);
    }
    AllowsIsUsable(s.promos[i], input, now);
    assert IsOpen(s.promos[i], s, input, now) && Offers(s.promos[i], d);
  }

  lemma {:induction false} CampaignsAreCampaigns(promos: seq<Promo>, n: nat, use: PromoUse)
    requires n <= |promos|
    ensures forall d :: d in UsableCampaigns(promos, n, use) ==>
      exists i :: 0 <= i < |promos| && IsUsable(promos[i], use) && d == ToDiscount(promos[i]) && promos[i].isCampaign
  {
    hide IsUsable, ToDiscount;
    if n > 0 {
      CampaignsAreCampaigns(promos, n - 1, use);
    }
  }

  // ---- Refusals

  /**
   * A checkout is refused for its code exactly when one was typed and no row
   * of that code allows the purchase; else only for a tenant there is not.
   */
  lemma CheckoutRefusesExactly(s: State, input: Checkout, now: int)
    requires Valid(s)
    ensures var r := CreateOrder(s, input, now);
      && (r == Err(PromoCodeInvalid) <==>
            input.typedCode.Some? &&
            forall i :: 0 <= i < |s.promos| && Some(s.promos[i].code) == input.typedCode ==>
              !Allows(s.promos[i], input, now))
      && (r.Err? && r != Err(PromoCodeInvalid) ==> r == Err(ConstraintViolation) && input.tenant >= |s.tenants|)
      && (r.Ok? ==> input.tenant < |s.tenants|)
  {
    hide Valid, IsUsable, UsableOne, UsableCampaigns, QuoteOf, IsEarlyEligible, Allows, ToDiscount;
    var use := PromoUse(input.tenant, input.plan, input.months, now);
    if input.typedCode.Some? {
      var code := input.typedCode.value;
      forall i | 0 <= i < |s.promos|
        ensures Allows(s.promos[i], input, now) <==> IsUsable(s.promos[i], use)
      {
        AllowsIsUsable(s.promos[i], input, now);
      }
      if i :| 0 <= i < |s.promos| && s.promos[i].code == code && IsUsable(s.promos[i], use) {
        UniqueCodes(s);
        UsableOneIs(s.promos, code, i, use);
      } else {
        UsableOneUnknown(s.promos, code, use);
      }
    }
  }

  // ---- The price

  /** How many of the term's months the row takes its percentage of. */
  function MonthsOff(row: Promo, months: Term): int {
    if row.isCampaign || row.months == None || row.months.value > months then months else row.months.value
  }

  /**
   * What the row makes of a table price: its percentage off the full price if
   * it is a campaign, else off the table price for the months it covers, to
   * the nearest whole, a half up; but never less than two fifths of the full
   * price, rounded down.
   */
  function PriceWith(row: Promo, months: Term, base: int, full: int): int {
    var exact := (if row.isCampaign then full else base) * (100 * months - row.percentOff * MonthsOff(row, months));
    var rounded := (2 * exact + 100 * months) / (200 * months);
    if rounded < full * 2 / 5 then full * 2 / 5 else rounded
  }

  lemma CandidateIsPriceWith(input: QuoteInput, row: Promo, d: Discount)
    requires Offers(row, d)
    ensures input.Candidate(d) == PriceWith(row, input.months, input.Base(), input.Full())
  {
    hide QuoteInput.Candidate, QuoteInput.Base, QuoteInput.Full, QuoteInput.Floor, IsRounded;
    CandidateIsRounded(input, d);
    FloorIsTwoFifths(input);
    var exact := Exact(input, d);
    var price :| IsRounded(price, exact, 100 * input.months)
      && input.Candidate(d) == if price < input.Floor() then input.Floor() else price;
    RoundedIsQuotient(price, exact, 100 * input.months);
  }

  lemma RoundedIsQuotient(price: int, exact: int, whole: int)
    requires whole > 0 && IsRounded(price, exact, whole)
    ensures price == (2 * exact + whole) / (2 * whole)
  {
    var k, n := whole * price, 2 * whole;
    assert 0 <= 2 * exact + whole - 2 * k < n;
    assert 2 * k == n * price;
    QuotientIs(2 * exact + whole, n, price);
  }

  lemma QuotientIs(a: int, n: int, q: int)
    requires n > 0 && 0 <= a - n * q < n
    ensures a / n == q
  {
    var apart := a / n - q;
    assert -n < n * apart < n;
  }

  function Quoted(s: State, input: Checkout, discounts: seq<Discount>): QuoteInput {
    QuoteInput(input.plan, input.months, input.currency,
               IsEarlyEligible(s.orders, input.tenant, input.earlySeats), discounts)
  }

  function IsEarlySeat(): Order -> bool {
    (o: Order) => o.isEarly && (o.status.Paid? || o.status.RefundRequested?)
  }

  /** The tenant holds a seat that is paid, or there are fewer orders with a seat than seats. */
  ghost predicate GetsEarlyPrice(s: State, input: Checkout) {
    && input.plan == Pro
    && (|| Count(s.orders, IsEarlySeat()) < input.earlySeats
        || exists i :: 0 <= i < |s.orders| && s.orders[i].tenant == input.tenant && s.orders[i].isEarly
             && s.orders[i].status.Paid?)
  }

  lemma EarlyPriceIs(s: State, input: Checkout, discounts: seq<Discount>)
    ensures Quoted(s, input, discounts).IsEarly() <==> GetsEarlyPrice(s, input)
  {
    CountsAlike(s.orders, IsEarlySeat(), (o: Order) => IsSeat(o));
  }

  lemma CreatedOrder(s: State, input: Checkout, now: int)
    requires CreateOrder(s, input, now).Ok?
    ensures UsableDiscounts(s, input, now).Ok?
    ensures CreateOrder(s, input, now).value == s.(orders := s.orders + [
      NewOrder(input.tenant, QuoteOf(Quoted(s, input, UsableDiscounts(s, input, now).value)))])
  {
    hide UsableDiscounts, IsEarlyEligible, QuoteOf;
  }

  lemma OfferedCode(row: Promo, d: Discount)
    requires Offers(row, d)
    ensures d.code == row.code
  {
  }

  /** The prices depend on whether the early table is used, not on why. */
  lemma SamePrices(quoted: QuoteInput, table: QuoteInput)
    requires table == quoted.(isEarlyEligible := quoted.IsEarly(), discounts := [])
    ensures table.Base() == quoted.Base() && table.Full() == quoted.Full()
  {
  }

  lemma QuoteIsLowest(input: QuoteInput)
    ensures var q := QuoteOf(input);
      && q.plan == input.plan && q.months == input.months && q.currency == input.currency
      && q.isEarly == input.IsEarly() && 0 < q.amountMinor <= 100 * input.Base()
      && (forall k :: 0 <= k < |input.discounts| ==> q.amountMinor <= 100 * input.Candidate(input.discounts[k]))
      && (q.appliedCode == None ==> q.amountMinor == 100 * input.Base())
      && (q.appliedCode.Some? ==>
            q.amountMinor < 100 * input.Base() &&
            exists k :: 0 <= k < |input.discounts| && q.appliedCode == Some(input.discounts[k].code)
              && q.amountMinor == 100 * input.Candidate(input.discounts[k]))
  {
    QuoteBounds(input);
    hide QuoteInput.Candidate, QuoteInput.Base, QuoteInput.Floor;
    CheapestIsMinimum(input, |input.discounts|);
  }

  /** The quote is no higher than any open row's price, and the named code's if one is named. */
  lemma QuoteIsOfOpenRows(s: State, input: Checkout, now: int)
    requires Valid(s) && UsableDiscounts(s, input, now).Ok?
    ensures var quoted := Quoted(s, input, UsableDiscounts(s, input, now).value);
      var q := QuoteOf(quoted);
      && (forall i :: 0 <= i < |s.promos| && IsOpen(s.promos[i], s, input, now) ==>
            q.amountMinor <= 100 * PriceWith(s.promos[i], input.months, quoted.Base(), quoted.Full()))
      && (q.appliedCode.Some? ==>
            exists i :: 0 <= i < |s.promos| && IsOpen(s.promos[i], s, input, now)
              && q.appliedCode == Some(s.promos[i].code)
              && q.amountMinor == 100 * PriceWith(s.promos[i], input.months, quoted.Base(), quoted.Full()))
  {
    hide Valid, UsableDiscounts, IsEarlyEligible, QuoteOf, QuoteInput.IsEarly, QuoteInput.Base,
      QuoteInput.Full, QuoteInput.Candidate, IsOpen, PriceWith, Offers;
    var ds := UsableDiscounts(s, input, now).value;
    var quoted := Quoted(s, input, ds);
    var q := QuoteOf(quoted);
    QuoteIsLowest(quoted);
    OpenRowsAreCompared(s, input, now);
    forall i | 0 <= i < |s.promos| && IsOpen(s.promos[i], s, input, now)
      ensures q.amountMinor <= 100 * PriceWith(s.promos[i], input.months, quoted.Base(), quoted.Full())
    {
      var k :| 0 <= k < |ds| && Offers(s.promos[i], ds[k]);
      CandidateIsPriceWith(quoted, s.promos[i], ds[k]);
    }
    if q.appliedCode.Some? {
      var k :| 0 <= k < |ds| && q.appliedCode == Some(ds[k].code) && q.amountMinor == 100 * quoted.Candidate(ds[k]);
      assert ds[k] in ds;
      var i :| 0 <= i < |s.promos| && IsOpen(s.promos[i], s, input, now) && Offers(s.promos[i], ds[k]);
      CandidateIsPriceWith(quoted, s.promos[i], ds[k]);
      OfferedCode(s.promos[i], ds[k]);
    }
  }

  /**
   * A checkout that is not refused adds one unpaid order of what was asked
   * for, at the lowest of the table price and the prices of the open rows. A
   * code is named exactly when some row lowered the price, and it is one whose
   * price this is.
   */
  lemma CheckoutPrice(s: State, input: Checkout, now: int)
    requires Valid(s) && CreateOrder(s, input, now).Ok?
    ensures var s' := CreateOrder(s, input, now).value;
      var o := s'.orders[|s.orders|];
      var table := QuoteInput(input.plan, input.months, input.currency, o.isEarly, []);
      && s' == s.(orders := s.orders + [o])
      && o == Order(input.tenant, input.plan, input.months, o.amountMinor, input.currency, o.isEarly, o.promoCode,
                    Yookassa, Created)
      && (o.isEarly <==> GetsEarlyPrice(s, input))
      && 0 < o.amountMinor <= 100 * table.Base()
      && (forall i :: 0 <= i < |s.promos| && IsOpen(s.promos[i], s, input, now) ==>
            o.amountMinor <= 100 * PriceWith(s.promos[i], input.months, table.Base(), table.Full()))
      && (if o.promoCode == None then o.amountMinor == 100 * table.Base()
          else o.amountMinor < 100 * table.Base() &&
               exists i :: 0 <= i < |s.promos| && IsOpen(s.promos[i], s, input, now)
                 && o.promoCode == Some(s.promos[i].code)
                 && o.amountMinor == 100 * PriceWith(s.promos[i], input.months, table.Base(), table.Full()))
  {
    hide Valid, CreateOrder, UsableDiscounts, IsEarlyEligible, QuoteOf, QuoteInput.IsEarly, QuoteInput.Base,
      QuoteInput.Full, QuoteInput.Candidate, IsOpen, PriceWith, GetsEarlyPrice;
    CreatedOrder(s, input, now);
    var quoted := Quoted(s, input, UsableDiscounts(s, input, now).value);
    EarlyPriceIs(s, input, quoted.discounts);
    SamePrices(quoted, QuoteInput(input.plan, input.months, input.currency, quoted.IsEarly(), []));
    QuoteIsLowest(quoted);
    QuoteIsOfOpenRows(s, input, now);
  }
}
