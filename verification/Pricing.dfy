/**
 * What a plan costs (packages/domain/src/billing/pricing.ts). Prices are whole
 * roubles or dollars; percentages are exact rationals, rounded half up.
 */
module Pricing {
  import opened Wrappers

  datatype Plan = Free | Starter | Pro | Team

  type PaidPlan = p: Plan | p != Free witness Starter

  type Term = m: int | m == 1 || m == 3 || m == 6 || m == 12 witness 1

  datatype Currency = RUB | USD

  /** Roubles and dollars for one, three, six and twelve months. */
  function PriceRow(currency: Currency, plan: PaidPlan): (row: seq<nat>)
    ensures |row| == 4
  {
    match (currency, plan)
    case (RUB, Starter) => [290, 790, 1390, 2390]
    case (RUB, Pro) => [790, 2090, 3790, 6590]
    case (RUB, Team) => [1990, 5390, 9490, 16690]
    case (USD, Starter) => [6, 16, 29, 49]
    case (USD, Pro) => [14, 38, 67, 119]
    case (USD, Team) => [45, 119, 215, 379]
  }

  function EarlyProRow(currency: Currency): (row: seq<nat>)
    ensures |row| == 4
  {
    match currency
    case RUB => [390, 1090, 1890, 3790]
    case USD => [7, 19, 34, 67]
  }

  function TermIndex(months: Term): (i: nat)
    ensures i < 4
  {
    if months == 1 then 0 else if months == 3 then 1 else if months == 6 then 2 else 3
  }

  datatype DiscountKind = Campaign | TypedCode

  datatype Discount = Discount(code: string, kind: DiscountKind, percentOff: int, months: Option<int>)

  datatype QuoteInput = QuoteInput(
    plan: PaidPlan, months: Term, currency: Currency, isEarlyEligible: bool, discounts: seq<Discount>)
  {
    predicate IsEarly() {
      plan == Pro && isEarlyEligible
    }

    /** The table price, before any discount. */
    function Base(): nat {
      if IsEarly() then EarlyProRow(currency)[TermIndex(months)]
      else PriceRow(currency, plan)[TermIndex(months)]
    }

    /** The monthly price times the months. */
    function Full(): nat {
      PriceRow(currency, plan)[0] * months
    }

    /** Sixty per cent off the full price, in whole roubles or dollars. */
    function Floor(): int {
      (Full() as real * (1.0 - 0.6)).Floor
    }

    function Candidate(d: Discount): int {
      var price := RoundHalfUp(DiscountedPrice(Base(), Full(), months, d));
      if price < Floor() then Floor() else price
    }
  }

  datatype PriceQuote = PriceQuote(
    plan: PaidPlan, months: Term, currency: Currency, amountMinor: int, isEarly: bool,
    fullAmountMinor: int, appliedCode: Option<string>)

  function RoundHalfUp(x: real): int {
    (x + 0.5).Floor
  }

  function DiscountedPrice(base: nat, full: nat, months: Term, d: Discount): real {
    var share := d.percentOff as real / 100.0;
    if d.kind == Campaign then full as real * (1.0 - share)
    else
      var covered := match d.months case None => months case Some(m) => if m < months then m else months;
      base as real * (1.0 - share * (covered as real / months as real))
  }

  /** The lowest price after the first `n` discounts, and the code that first reached it. */
  function Cheapest(input: QuoteInput, n: nat): (best: (int, Option<string>))
    requires n <= |input.discounts|
  {
    if n == 0 then (input.Base(), None)
    else
      var best := Cheapest(input, n - 1);
      var candidate := input.Candidate(input.discounts[n - 1]);
      if candidate < best.0 then (candidate, Some(input.discounts[n - 1].code)) else best
  }

  function QuoteOf(input: QuoteInput): PriceQuote {
    var best := Cheapest(input, |input.discounts|);
    PriceQuote(input.plan, input.months, input.currency, 100 * best.0, input.IsEarly(),
               100 * input.Full(), best.1)
  }

  method Quote(input: QuoteInput) returns (quote: PriceQuote)
    ensures quote == QuoteOf(input)
  {
    var amount: int := input.Base();
    var appliedCode: Option<string> := None;
    for i := 0 to |input.discounts|
      invariant (amount, appliedCode) == Cheapest(input, i)
    {
      var candidate := input.Candidate(input.discounts[i]);
      if candidate < amount {
        amount := candidate;
        appliedCode := Some(input.discounts[i].code);
      }
    }
    quote := PriceQuote(input.plan, input.months, input.currency, 100 * amount, input.IsEarly(),
                        100 * input.Full(), appliedCode);
  }

  /** `amount` is a lower bound of the table price and every candidate, and is one of them. */
  ghost predicate IsMinimum(input: QuoteInput, n: nat, amount: int)
    requires n <= |input.discounts|
  {
    && amount <= input.Base()
    && (forall i :: 0 <= i < n ==> amount <= input.Candidate(input.discounts[i]))
    && (amount == input.Base() || exists i :: 0 <= i < n && amount == input.Candidate(input.discounts[i]))
  }

  /** The named code attains `amount`, and no discount before it does. */
  ghost predicate IsFirstAttaining(input: QuoteInput, n: nat, amount: int, code: string)
    requires n <= |input.discounts|
  {
    exists i :: 0 <= i < n && input.discounts[i].code == code
      && input.Candidate(input.discounts[i]) == amount
      && forall j :: 0 <= j < i ==> input.Candidate(input.discounts[j]) > amount
  }

  lemma {:induction false} CheapestIsMinimum(input: QuoteInput, n: nat)
    requires n <= |input.discounts|
    ensures var (amount, code) := Cheapest(input, n);
      && IsMinimum(input, n, amount)
      && (code == None <==> amount == input.Base())
      && (code.Some? ==> IsFirstAttaining(input, n, amount, code.value))
  {
    hide QuoteInput.Candidate, QuoteInput.Base;
    if n > 0 {
      CheapestIsMinimum(input, n - 1);
      assert input.Candidate(input.discounts[n - 1]) == input.Candidate(input.discounts[n - 1]);
    }
  }

  /** The quoted amount is the minimum; a code is named exactly when some discount beat the table. */
  lemma QuoteIsMinimum(input: QuoteInput)
    ensures var q := QuoteOf(input);
      exists amount :: q.amountMinor == 100 * amount
        && IsMinimum(input, |input.discounts|, amount)
        && (q.appliedCode.Some? <==>
            exists i :: 0 <= i < |input.discounts| && input.Candidate(input.discounts[i]) < input.Base())
        && (q.appliedCode.Some? ==>
            IsFirstAttaining(input, |input.discounts|, amount, q.appliedCode.value))
  {
    hide QuoteInput.Candidate, QuoteInput.Base;
    CheapestIsMinimum(input, |input.discounts|);
    var (amount, code) := Cheapest(input, |input.discounts|);
    assert QuoteOf(input).amountMinor == 100 * amount && IsMinimum(input, |input.discounts|, amount);
  }

  /** The months of the term a code takes its share of; a campaign takes it of the whole full price. */
  function Covered(months: Term, d: Discount): int {
    if d.kind == Campaign || d.months == None || d.months.value > months then months else d.months.value
  }

  /** What a discount makes of the price, times a hundred times the months, before rounding and the cap. */
  function Exact(input: QuoteInput, d: Discount): int {
    (if d.kind == Campaign then input.Full() else input.Base())
    * (100 * input.months - d.percentOff * Covered(input.months, d))
  }

  /** `price` is `exact / whole` to the nearest integer, a half up. */
  predicate IsRounded(price: int, exact: int, whole: int) {
    2 * exact - whole < 2 * (whole * price) <= 2 * exact + whole
  }

  /**
   * A campaign counts from the full price and so replaces the term and early
   * discounts; a code counts from the table price, for the months it covers.
   * Either is rounded to the nearest unit, a half up; the cap comes last.
   */
  lemma CandidateIsRounded(input: QuoteInput, d: Discount)
    ensures exists price :: (
      && IsRounded(price, Exact(input, d), 100 * input.months)
      && input.Candidate(d) == if price < input.Floor() then input.Floor() else price)
  {
    hide QuoteInput.Floor, RoundHalfUp, IsRounded, Exact;
    var unrounded := DiscountedPrice(input.Base(), input.Full(), input.months, d);
    DiscountedExactly(input, d);
    RoundingExactly(unrounded, 100 * input.months, Exact(input, d));
    CandidateOf(input, d, RoundHalfUp(unrounded));
  }

  lemma DiscountedExactly(input: QuoteInput, d: Discount)
    ensures Times(DiscountedPrice(input.Base(), input.Full(), input.months, d), (100 * input.months) as real)
      == Exact(input, d) as real
  {
    hide QuoteInput.Base, QuoteInput.Full;
    var covered := Covered(input.months, d);
    ShareTakenOff(if d.kind == Campaign then input.Full() else input.Base(), input.months, d.percentOff, covered);
    assert input.months as real / input.months as real == 1.0;
  }

  lemma CandidateOf(input: QuoteInput, d: Discount, price: int)
    requires price == RoundHalfUp(DiscountedPrice(input.Base(), input.Full(), input.months, d))
    ensures input.Candidate(d) == if price < input.Floor() then input.Floor() else price
  {
  }

  lemma ShareTakenOff(from: nat, months: Term, percent: int, covered: int)
    ensures from as real * (1.0 - percent as real / 100.0 * (covered as real / months as real)) * (100 * months) as real
      == (from * (100 * months - percent * covered)) as real
  {
    var share, part := percent as real / 100.0, covered as real / months as real;
    var m := months as real;
    assert share * 100.0 == percent as real && part * m == covered as real;
    assert (100 * months) as real == 100.0 * m;
    assert share * part * (100.0 * m) == percent as real * covered as real by {
      assert share * part * (100.0 * m) == (share * 100.0) * (part * m);
    }
    assert from as real * (1.0 - share * part) * (100.0 * m)
      == from as real * (100.0 * m - share * part * (100.0 * m));
    assert (percent * covered) as real == percent as real * covered as real;
  }

  function Times(a: real, b: real): real {
    a * b
  }

  lemma RoundingExactly(x: real, whole: int, exact: int)
    requires whole > 0 && Times(x, whole as real) == exact as real
    ensures IsRounded(RoundHalfUp(x), exact, whole)
  {
    hide Times;
    var r := RoundHalfUp(x);
    Between(x, r as real, whole as real);
    IntegerProduct(whole, r);
    hide RoundHalfUp;
    Doubled(whole * r, exact, whole);
  }

  lemma Between(x: real, r: real, w: real)
    requires w > 0.0 && r <= x + 0.5 < r + 1.0
    ensures Times(x, w) - 0.5 * w < Times(r, w) <= Times(x, w) + 0.5 * w
  {
    hide Times;
    Scaled(r, x + 0.5, w);
    Scaled(x - 0.5, r, w);
    Distributed(x, w);
  }

  lemma Scaled(a: real, b: real, w: real)
    requires w > 0.0
    ensures a <= b ==> Times(a, w) <= Times(b, w)
    ensures a < b ==> Times(a, w) < Times(b, w)
  {
  }

  lemma Distributed(x: real, w: real)
    ensures Times(x + 0.5, w) == Times(x, w) + 0.5 * w && Times(x - 0.5, w) == Times(x, w) - 0.5 * w
  {
  }

  lemma IntegerProduct(a: int, b: int)
    ensures (a * b) as real == Times(b as real, a as real)
  {
  }

  lemma Doubled(k: int, exact: int, whole: int)
    requires exact as real - 0.5 * whole as real < k as real <= exact as real + 0.5 * whole as real
    ensures 2 * exact - whole < 2 * k <= 2 * exact + whole
  {
  }

  /** The price depends on which discounts there are, not on their order or repetition. */
  lemma QuoteIgnoresOrder(a: QuoteInput, b: QuoteInput)
    requires b == a.(discounts := b.discounts)
    requires forall d :: d in a.discounts <==> d in b.discounts
    ensures QuoteOf(a).amountMinor == QuoteOf(b).amountMinor
  {
    QuoteNeverRaised(a, b);
    QuoteNeverRaised(b, a);
  }

  /** More discounts never make it dearer. */
  lemma QuoteNeverRaised(a: QuoteInput, b: QuoteInput)
    requires b == a.(discounts := b.discounts)
    requires forall d :: d in a.discounts ==> d in b.discounts
    ensures QuoteOf(b).amountMinor <= QuoteOf(a).amountMinor
  {
    SameTables(a, b);
    hide QuoteInput.Candidate, QuoteInput.Base;
    CheapestIsMinimum(a, |a.discounts|);
    CheapestIsMinimum(b, |b.discounts|);
    var amount := Cheapest(a, |a.discounts|).0;
    if amount != a.Base() {
      var i :| 0 <= i < |a.discounts| && amount == a.Candidate(a.discounts[i]);
      assert a.discounts[i] in b.discounts;
      var j :| 0 <= j < |b.discounts| && b.discounts[j] == a.discounts[i];
      assert b.Candidate(b.discounts[j]) == amount;
    }
  }

  lemma SameTables(a: QuoteInput, b: QuoteInput)
    requires b == a.(discounts := b.discounts)
    ensures a.Base() == b.Base()
    ensures forall d :: a.Candidate(d) == b.Candidate(d)
  {
    hide DiscountedPrice;
  }

  /** Never free, never above the table price, and never below the rounded cap or the table, whichever is lower. */
  lemma QuoteBounds(input: QuoteInput)
    ensures var q, base, floor := QuoteOf(input), input.Base(), input.Floor();
      0 < 100 * (if base < floor then base else floor) <= q.amountMinor <= 100 * base
  {
    Tables(input);
    CandidatesAboveFloor(input);
    hide QuoteInput.Candidate, QuoteInput.Base, QuoteInput.Floor;
    CheapestIsMinimum(input, |input.discounts|);
  }

  lemma CandidatesAboveFloor(input: QuoteInput)
    ensures forall d :: input.Candidate(d) >= input.Floor()
  {
  }

  /** What a month is planned to cost. */
  function Monthly(currency: Currency, plan: PaidPlan): nat {
    match plan
    case Starter => if currency == RUB then 290 else 6
    case Pro => if currency == RUB then 790 else 14
    case Team => if currency == RUB then 1990 else 45
  }

  /** What the longer terms are documented to take off, in per cent. */
  function TermOff(months: Term): nat {
    if months == 1 then 0 else if months == 3 then 10 else if months == 6 then 20 else 30
  }

  /** Four per cent away at most. */
  predicate IsNear(price: int, planned: real) {
    planned * 0.96 <= price as real <= planned * 1.04
  }

  /**
   * The tables follow the documented plan: the full price is the monthly one
   * times the months, a term's price lies within four per cent of what its
   * discount makes of that, and so does an early price with 390 roubles or 7
   * dollars a month, or forty per cent of the full price where that is more.
   * A longer term costs no more a month, but for twelve months instead of six
   * at the early rouble price.
   */
  lemma TablesFollowPlan(input: QuoteInput, longer: QuoteInput)
    requires longer == input.(months := longer.months) && input.months <= longer.months
    ensures input.Full() == Monthly(input.currency, input.plan) * input.months
    ensures var early, off := if input.currency == RUB then 390.0 else 7.0, TermOff(input.months) as real / 100.0;
      var full, months := input.Full() as real, input.months as real;
      if !input.IsEarly() then IsNear(input.Base(), full * (1.0 - off))
      else
        IsNear(input.Base(),
               if early * months * (1.0 - off) < full * 0.4 then full * 0.4 else early * months * (1.0 - off))
    ensures longer.Base() * input.months <= input.Base() * longer.months <==>
      !(input.IsEarly() && input.currency == RUB && input.months == 6 && longer.months == 12)
  {
  }

  lemma Tables(input: QuoteInput)
    ensures input.Base() > 0 && input.Floor() > 0
  {
  }

  /** Two table prices lie below the cap as it is rounded down: the early rouble prices for six and twelve months. */
  lemma TableBelowCap(input: QuoteInput)
    ensures input.Base() < input.Floor() <==>
      input.IsEarly() && input.currency == RUB && input.months >= 6
  {
    assert input.Full() * 2 / 5 == input.Floor() by { FloorIsTwoFifths(input); }
  }

  /** Below forty per cent of the full price there is a third one: the early dollar price for twelve months. */
  lemma TableBelowFortyPercent(input: QuoteInput)
    ensures 5 * input.Base() < 2 * input.Full() <==>
      && input.IsEarly()
      && ((input.currency == RUB && input.months >= 6) || (input.currency == USD && input.months == 12))
  {
  }

  /** Less than forty per cent of the full price is asked. */
  predicate IsBelowFortyPercent(q: PriceQuote) {
    5 * q.amountMinor < 2 * q.fullAmountMinor
  }

  /**
   * More than sixty per cent can be taken off, by some discounts, exactly
   * where forty per cent of the full price is no whole number, so that the cap
   * rounded down lies below it, and at the two early rouble prices.
   */
  lemma CapIsExceededExactly(input: QuoteInput)
    ensures (exists ds :: IsBelowFortyPercent(QuoteOf(input.(discounts := ds)))) <==>
      input.Full() % 5 != 0 || (input.IsEarly() && input.currency == RUB && input.months >= 6)
  {
    TableBelowCap(input);
    FloorIsTwoFifths(input);
    hide QuoteInput.Base, QuoteInput.Full, QuoteInput.Floor, QuoteInput.Candidate, QuoteOf;
    forall ds
      ensures IsBelowFortyPercent(QuoteOf(input.(discounts := ds))) ==>
        input.Full() % 5 != 0 || input.Base() < input.Floor()
    {
      QuoteOfSameTables(input, ds);
      QuoteBounds(input.(discounts := ds));
    }
    if input.Full() % 5 != 0 || input.Base() < input.Floor() {
      var d := Discount("ALL", Campaign, 100, None);
      QuoteOfSameTables(input, [d]);
      GivenAway(input, d);
      assert IsBelowFortyPercent(QuoteOf(input.(discounts := [d])));
    }
  }

  lemma QuoteOfSameTables(input: QuoteInput, ds: seq<Discount>)
    ensures var other := input.(discounts := ds);
      && other.Base() == input.Base() && other.Full() == input.Full() && other.Floor() == input.Floor()
      && QuoteOf(other).fullAmountMinor == 100 * input.Full()
  {
  }

  /** A campaign of a hundred per cent leaves the cap or the table price, whichever is lower. */
  lemma GivenAway(input: QuoteInput, d: Discount)
    requires d.kind == Campaign && d.percentOff == 100
    ensures QuoteOf(input.(discounts := [d])).amountMinor
      == 100 * if input.Base() < input.Floor() then input.Base() else input.Floor()
  {
    var other := input.(discounts := [d]);
    Tables(other);
    QuoteOfSameTables(input, [d]);
    hide QuoteInput.Base, QuoteInput.Full, QuoteInput.Floor;
    assert DiscountedPrice(other.Base(), other.Full(), other.months, d) == 0.0;
    assert RoundHalfUp(0.0) == 0;
    assert other.Candidate(d) == other.Floor();
    assert Cheapest(other, 0) == (other.Base(), None);
  }

  lemma FloorIsTwoFifths(input: QuoteInput)
    ensures input.Floor() == input.Full() * 2 / 5
  {
    hide QuoteInput.Full;
    var full: int := input.Full();
    var n := full * 2 / 5;
    assert 5 * n <= 2 * full < 5 * n + 5;
    assert full as real * (1.0 - 0.6) == (2 * full) as real / 5.0;
  }
}
