/**
 * Amounts as ЮKassa writes them, and what a verified payment means for an
 * order (apps/web/src/lib/yookassa.ts).
 */
module Money {
  import opened Wrappers
  import opened Decimal

  /** "790.00" from 79000; nothing for an amount that is not positive. */
  function FormatAmount(amountMinor: int): Option<string> {
    if amountMinor <= 0 then None
    else Some(Print(amountMinor / 100) + "." + PrintTwo(amountMinor % 100))
  }

  /** Digits, then optionally a point and one or two digits: `^(\d+)(?:\.(\d{1,2}))?$`. */
  predicate IsMoney(value: string) {
    var n := DigitRun(value);
    && n > 0
    && (n == |value|
        || (value[n] == '.' && AllDigits(value[n + 1..]) && 1 <= |value| - (n + 1) <= 2))
  }

  /** The whole part times a hundred plus the fraction padded to two digits; -1 outside `IsMoney`. */
  function ParseAmountMinor(value: string): int {
    if !IsMoney(value) then -1
    else
      var n := DigitRun(value);
      var fraction := if n == |value| then "0" else value[n + 1..];
      var padded := if |fraction| == 1 then fraction + "0" else fraction;
      Value(value[..n]) * 100 + Value(padded)
  }

  datatype PaymentStatus = Pending | WaitingForCapture | Succeeded | Canceled

  datatype Payment = Payment(id: string, status: PaymentStatus, amount: string, orderId: Option<nat>)

  datatype PaymentOutcome = PaymentOutcome(eventKey: string, orderId: nat, isPaid: bool, paidAmountMinor: int)

  /** What the payment means, or nothing while it is in progress or names no order. */
  function OutcomeOf(payment: Payment): Option<PaymentOutcome> {
    if payment.orderId == None then None
    else if payment.status != Succeeded && payment.status != Canceled then None
    else Some(PaymentOutcome(
      payment.id + ":" + (if payment.status == Succeeded then "succeeded" else "canceled"),
      payment.orderId.value, payment.status == Succeeded, ParseAmountMinor(payment.amount)))
  }

  /** What was printed has two digits behind a point and is read back. */
  lemma ParseOfFormat(n: int)
    requires n > 0
    ensures FormatAmount(n).Some?
    ensures var value := FormatAmount(n).value; |value| >= 4 && value[|value| - 3] == '.'
    ensures ParseAmountMinor(FormatAmount(n).value) == n
  {
    var whole, cents := Print(n / 100), PrintTwo(n % 100);
    var value := FormatAmount(n).value;
    assert value == whole + ("." + cents);
    DigitRunOfPrefix(whole, "." + cents);
    ValueOfPrint(n / 100);
    assert value[|whole| + 1..] == cents;
  }

  /** Digits, and after a point one or two digits if there is a point. */
  ghost predicate IsWritten(value: string, whole: string, cents: string) {
    && whole != "" && AllDigits(whole) && AllDigits(cents) && |cents| <= 2
    && value == if cents == "" then whole else whole + "." + cents
  }

  /**
   * Any text of digits with at most two behind a point is read as a hundred
   * times the number before it and the number behind it, one digit standing
   * for ten; no other text is an amount.
   */
  lemma ParseExactly(value: string)
    ensures forall whole, cents :: IsWritten(value, whole, cents) ==>
      ParseAmountMinor(value)
        == 100 * Value(whole) + (if |cents| == 1 then 10 * Value(cents) else Value(cents))
    ensures ParseAmountMinor(value) == -1 <==> forall whole, cents :: !IsWritten(value, whole, cents)
  {
    forall whole, cents | IsWritten(value, whole, cents)
      ensures ParseAmountMinor(value)
        == 100 * Value(whole) + (if |cents| == 1 then 10 * Value(cents) else Value(cents))
    {
      WrittenIsRead(value, whole, cents);
    }
    if IsMoney(value) {
      var n := DigitRun(value);
      var cents := if n == |value| then "" else value[n + 1..];
      assert n < |value| ==> value == value[..n] + "." + cents;
      assert IsWritten(value, value[..n], cents);
    }
  }

  lemma WrittenIsRead(value: string, whole: string, cents: string)
    requires IsWritten(value, whole, cents)
    ensures ParseAmountMinor(value)
      == 100 * Value(whole) + (if |cents| == 1 then 10 * Value(cents) else Value(cents))
  {
    var rest := if cents == "" then "" else "." + cents;
    assert value == whole + rest;
    DigitRunOfPrefix(whole, rest);
    ValueOfZero();
    if cents != "" {
      assert value[|whole| + 1..] == cents;
      assert (cents + "0")[..|cents|] == cents;
    }
  }

  lemma ValueOfZero()
    ensures Value("0") == 0 && Value("") == 0
  {
    assert "0"[..0] == "";
  }

  /**
   * Only a payment that succeeded or was canceled, and names an order, means
   * anything; which of the two it was decides whether the order counts as paid.
   */
  lemma OutcomeExactly(payment: Payment)
    ensures var r := OutcomeOf(payment);
      && (r.Some? <==> payment.orderId.Some? && (payment.status == Succeeded || payment.status == Canceled))
      && (r.Some? ==>
            && Some(r.value.orderId) == payment.orderId && (r.value.isPaid <==> payment.status == Succeeded)
            && r.value.paidAmountMinor == ParseAmountMinor(payment.amount))
  {
    hide ParseAmountMinor;
  }

  /** A key names one payment and one final status, whatever the payment's own identifier looks like. */
  lemma EventKeyInjective(p: Payment, q: Payment)
    requires OutcomeOf(p).Some? && OutcomeOf(q).Some?
    requires OutcomeOf(p).value.eventKey == OutcomeOf(q).value.eventKey
    ensures p.id == q.id && p.status == q.status
  {
    var a, b := OutcomeOf(p).value.eventKey, OutcomeOf(q).value.eventKey;
    EventKeyEnd(p);
    EventKeyEnd(q);
    assert p.id == a[..|p.id|] && q.id == b[..|q.id|];
  }

  /** The last letter but two tells "succeeded" from "canceled". */
  lemma EventKeyEnd(p: Payment)
    requires OutcomeOf(p).Some?
    ensures var key := OutcomeOf(p).value.eventKey;
      && |key| == |p.id| + (if p.status == Succeeded then 10 else 9)
      && key[|key| - 3] == (if p.status == Succeeded then 'd' else 'l')
  {
    assert "succeeded"[6] == 'd' && "canceled"[5] == 'l';
  }
}
