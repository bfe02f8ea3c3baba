/**
 * Sending one digest and trying again (packages/delivery/src/deliver.ts). The
 * attempt number lives in the digest's failure reason, as text.
 */
module Delivery {
  import opened Wrappers
  import opened Decimal

  const RETRY_DELAYS_MINUTES: seq<nat> := [5, 30, 120]
  const MAX_RETRIES := |RETRY_DELAYS_MINUTES|
  const ATTEMPT_PREFIX := "delivery_failed:attempt:"

  datatype Status = Pending | Delivered | Failed

  datatype Digest = Digest(status: Status, failureReason: Option<string>)

  const FRESH := Digest(Pending, None)

  /** What sending came to. `smtpCode` is looked at for email only. */
  datatype Sending =
    | NotConfigured
    | NoAddress(reason: string)
    | Sent
    | Refused(code: string, hasDetails: bool, httpStatus: Option<int>, isBotBlocked: bool, smtpCode: Option<int>)

  datatype Channel = Telegram | Email

  datatype Outcome = Outcome(status: string, retryAfterMinutes: Option<nat>)

  /** Network errors, rate limits and server errors. */
  predicate IsRetryable(e: Sending)
    requires e.Refused?
  {
    e.code == "delivery_failed" && e.hasDetails
    && (e.httpStatus == None || e.httpStatus.value == 429 || e.httpStatus.value >= 500)
  }

  predicate IsBotBlocked(e: Sending)
    requires e.Refused?
  {
    e.code == "delivery_failed" && e.hasDetails && e.isBotBlocked
  }

  predicate IsBounce(e: Sending)
    requires e.Refused?
  {
    e.code == "delivery_failed" && e.hasDetails && e.smtpCode.Some? && 500 <= e.smtpCode.value < 600
  }

  /** The first place where the prefix is followed by a digit, as an unanchored regular expression finds it. */
  function FindAttempt(s: string): Option<nat>
    decreases |s|
  {
    if |s| > |ATTEMPT_PREFIX| && ATTEMPT_PREFIX <= s && IsDigit(s[|ATTEMPT_PREFIX|]) then
      var digits := s[|ATTEMPT_PREFIX|..];
      Some(Value(digits[..DigitRun(digits)]))
    else if s == "" then None
    else FindAttempt(s[1..])
  }

  function CurrentAttempt(reason: Option<string>): nat {
    if reason == None then 0
    else
      var found := FindAttempt(reason.value);
      if found.Some? then found.value else 0
  }

  function AttemptReason(attempt: nat): string {
    ATTEMPT_PREFIX + Print(attempt)
  }

  /** The retry decision both channels share. */
  function Retry(d: Digest, e: Sending): Option<(Digest, Outcome)>
    requires e.Refused?
  {
    var attempt := CurrentAttempt(d.failureReason);
    if IsRetryable(e) && attempt < MAX_RETRIES then
      Some((d.(failureReason := Some(AttemptReason(attempt + 1))),
            Outcome("failed", Some(RETRY_DELAYS_MINUTES[attempt]))))
    else None
  }

  function Deliver(d: Digest, channel: Channel, sending: Sending): (Digest, Outcome) {
    match sending
    case NotConfigured => (d, Outcome("failed", None))
    case NoAddress(reason) =>
      (Digest(Failed, Some(reason)), Outcome(if channel == Telegram then "not_bound" else "failed", None))
    case Sent => (Digest(Delivered, None), Outcome("delivered", None))
    case Refused(code, _, _, _, _) =>
      if channel == Telegram && IsBotBlocked(sending) then
        (Digest(Failed, Some("telegram_blocked")), Outcome("failed", None))
      else
        var again := Retry(d, sending);
        if again.Some? then again.value
        else if channel == Email && IsBounce(sending) then
          (Digest(Failed, Some("email_bounced")), Outcome("failed", None))
        else (Digest(Failed, Some(code)), Outcome("failed", None))
  }

  /** The digest row. */
  class DigestRow {
    var status: Status
    var failureReason: Option<string>

    function View(): Digest
      reads this
    {
      Digest(status, failureReason)
    }

    constructor ()
      ensures View() == FRESH
    {
      status, failureReason := Pending, None;
    }

    method DeliverNow(channel: Channel, sending: Sending) returns (outcome: Outcome)
      modifies this
      ensures (View(), outcome) == Deliver(old(View()), channel, sending)
    {
      match sending {
        case NotConfigured =>
          return Outcome("failed", None);
        case NoAddress(reason) =>
          status, failureReason := Failed, Some(reason);
          return Outcome(if channel == Telegram then "not_bound" else "failed", None);
        case Sent =>
          status, failureReason := Delivered, None;
          return Outcome("delivered", None);
        case Refused(code, _, _, _, _) =>
          if channel == Telegram && IsBotBlocked(sending) {
            status, failureReason := Failed, Some("telegram_blocked");
            return Outcome("failed", None);
          }
          var attempt := CurrentAttempt(failureReason);
          if IsRetryable(sending) && attempt < MAX_RETRIES {
            var nextAttempt := attempt + 1;
            failureReason := Some(AttemptReason(nextAttempt));
            return Outcome("failed", Some(RETRY_DELAYS_MINUTES[nextAttempt - 1]));
          }
          if channel == Email && IsBounce(sending) {
            status, failureReason := Failed, Some("email_bounced");
            return Outcome("failed", None);
          }
          status, failureReason := Failed, Some(code);
          return Outcome("failed", None);
      }
    }
  }

  /** The attempt number survives its trip through the text, for every number. */
  lemma AttemptReadsBack(attempt: nat)
    ensures CurrentAttempt(Some("delivery_failed:attempt:" + Print(attempt))) == attempt
  {
    var digits := Print(attempt);
    var s := AttemptReason(attempt);
    assert s[|ATTEMPT_PREFIX|..] == digits;
    assert digits == digits + "";
    DigitRunOfPrefix(digits, "");
    ValueOfPrint(attempt);
    assert s[|ATTEMPT_PREFIX|] == digits[0];
  }

  /** Runs in which every call reaches the sender. */
  predicate Reaches(sendings: seq<Sending>) {
    forall i :: 0 <= i < |sendings| ==> sendings[i] != NotConfigured
  }

  /** Call after call until the digest is no longer pending. */
  function RunCalls(d: Digest, channel: Channel, sendings: seq<Sending>): (Digest, seq<Outcome>)
    decreases |sendings|
  {
    if sendings == [] || d.status != Pending then (d, [])
    else
      var (next, outcome) := Deliver(d, channel, sendings[0]);
      var (last, outcomes) := RunCalls(next, channel, sendings[1..]);
      (last, [outcome] + outcomes)
  }

  /** A pending digest that was retried `attempt` times. */
  function RetriedTimes(attempt: nat): Digest {
    if attempt == 0 then Digest(Pending, None)
    else Digest(Pending, Some("delivery_failed:attempt:" + Print(attempt)))
  }

  /** One call on a digest retried `attempt` times decides it or makes it one retried once more. */
  lemma OneTry(attempt: nat, channel: Channel, sending: Sending)
    requires attempt <= MAX_RETRIES && sending != NotConfigured
    ensures RetriedTimes(attempt).status == Pending
    ensures var (next, outcome) := Deliver(RetriedTimes(attempt), channel, sending);
      if next.status == Pending then
        && attempt < MAX_RETRIES && next == RetriedTimes(attempt + 1)
        && outcome.retryAfterMinutes == Some(RETRY_DELAYS_MINUTES[attempt])
      else outcome.retryAfterMinutes == None
  {
    hide FindAttempt, Print;
    if attempt > 0 {
      AttemptReadsBack(attempt);
    }
    assert CurrentAttempt(RetriedTimes(attempt).failureReason) == attempt;
  }

  /**
   * From the n-th retry on, the digest is decided within the tries that are
   * left; each try that is not the last one asked to wait its delay, in order.
   */
  lemma {:induction false} DecidedAfter(attempt: nat, channel: Channel, sendings: seq<Sending>)
    requires attempt <= 3 && Reaches(sendings)
    ensures var (d, outcomes) := RunCalls(RetriedTimes(attempt), channel, sendings);
      && |outcomes| <= 4 - attempt
      && (|sendings| >= 4 - attempt ==> d.status != Pending)
      && (d.status == Pending ==> |outcomes| == |sendings| && d == RetriedTimes(attempt + |sendings|))
      && (forall i :: 0 <= i < |outcomes| && (d.status == Pending || i < |outcomes| - 1) ==>
            outcomes[i].retryAfterMinutes == Some([5, 30, 120][attempt + i]))
      && (d.status != Pending ==> outcomes != [] && outcomes[|outcomes| - 1].retryAfterMinutes == None)
    decreases |sendings|
  {
    hide Deliver, RetriedTimes;
    var d := RetriedTimes(attempt);
    assert d.status == Pending by { OneTry(attempt, channel, Sent); }
    if sendings != [] {
      OneTry(attempt, channel, sendings[0]);
      var (next, outcome) := Deliver(d, channel, sendings[0]);
      if next.status == Pending {
        DecidedAfter(attempt + 1, channel, sendings[1..]);
      }
      assert RunCalls(d, channel, sendings) ==
        (RunCalls(next, channel, sendings[1..]).0, [outcome] + RunCalls(next, channel, sendings[1..]).1);
    }
  }

  /**
   * A fresh digest is delivered or failed by the fourth call that reaches the
   * sender, and the retries before that wait 5, 30 and 120 minutes in order.
   */
  lemma DecidedByFourthCall(channel: Channel, sendings: seq<Sending>)
    requires Reaches(sendings)
    ensures var (d, outcomes) := RunCalls(FRESH, channel, sendings);
      && |outcomes| <= 4
      && (|sendings| >= 4 ==> d.status != Pending)
      && (forall i :: 0 <= i < |outcomes| && outcomes[i].retryAfterMinutes.Some? ==>
            i < 3 && outcomes[i].retryAfterMinutes.value == [5, 30, 120][i])
  {
    assert RetriedTimes(0) == FRESH;
    DecidedAfter(0, channel, sendings);
    hide RunCalls, RetriedTimes;
    var (d, outcomes) := RunCalls(FRESH, channel, sendings);
    forall i | 0 <= i < |outcomes| && outcomes[i].retryAfterMinutes.Some?
      ensures i < 3 && outcomes[i].retryAfterMinutes.value == [5, 30, 120][i]
    {
      assert d.status == Pending || i < |outcomes| - 1;
      assert outcomes[i].retryAfterMinutes == Some(RETRY_DELAYS_MINUTES[0 + i]);
    }
  }

  /** Telegram says that the reader blocked the bot. */
  predicate SaysBlocked(channel: Channel, sending: Sending) {
    && channel == Telegram && sending.Refused? && sending.code == "delivery_failed"
    && sending.hasDetails && sending.isBotBlocked
  }

  /** The mail server refused for good. */
  predicate SaysBounced(channel: Channel, sending: Sending) {
    && channel == Email && sending.Refused? && sending.code == "delivery_failed" && sending.hasDetails
    && sending.smtpCode.Some? && 500 <= sending.smtpCode.value <= 599
  }

  /** A refusal that waiting may cure: a network error, a rate limit or a server error. */
  predicate MayPass(channel: Channel, sending: Sending) {
    && sending.Refused? && sending.code == "delivery_failed" && sending.hasDetails
    && (sending.httpStatus.Some? ==> sending.httpStatus.value == 429 || sending.httpStatus.value >= 500)
    && !SaysBlocked(channel, sending)
  }

  predicate CanRetry(d: Digest, channel: Channel, sending: Sending) {
    MayPass(channel, sending) && CurrentAttempt(d.failureReason) < 3
  }

  /**
   * A pending digest stays pending exactly when the sender is not configured
   * or the refusal can pass and fewer than three retries were made; the row
   * then counts the retry, which waits 5, 30 or 120 minutes. Otherwise the row
   * says for good why it failed, or that it was delivered.
   */
  lemma DecidedExactly(d: Digest, channel: Channel, sending: Sending)
    requires d.status == Pending
    ensures var (next, outcome), attempt := Deliver(d, channel, sending), CurrentAttempt(d.failureReason);
      && (next.status == Pending <==> sending == NotConfigured || CanRetry(d, channel, sending))
      && (sending == NotConfigured ==> next == d)
      && (sending == Sent ==> next == Digest(Delivered, None))
      && (sending.NoAddress? ==> next == Digest(Failed, Some(sending.reason)))
      && (outcome.status == "delivered" <==> sending == Sent)
      && (outcome.status == "not_bound" <==> sending.NoAddress? && channel == Telegram)
      && outcome.status in {"delivered", "not_bound", "failed"}
      && (outcome.retryAfterMinutes.Some? <==> CanRetry(d, channel, sending))
      && (CanRetry(d, channel, sending) ==>
            && next == Digest(Pending, Some("delivery_failed:attempt:" + Print(attempt + 1)))
            && outcome.retryAfterMinutes == Some([5, 30, 120][attempt]))
      && (sending.Refused? && !CanRetry(d, channel, sending) ==> next == Digest(Failed, Some(
            if SaysBlocked(channel, sending) then "telegram_blocked"
            else if SaysBounced(channel, sending) then "email_bounced"
            else sending.code)))
  {
    hide FindAttempt, Print;
  }

  /** The text begins with the words and a digit. */
  predicate SaysAttempt(s: string) {
    |s| > 24 && s[..24] == "delivery_failed:attempt:" && '0' <= s[24] <= '9'
  }

  /** A reason counts an attempt exactly when somewhere in it the words are followed by a digit. */
  lemma {:induction false} FoundExactly(s: string)
    ensures FindAttempt(s) == None <==> forall i :: 0 <= i <= |s| ==> !SaysAttempt(s[i..])
    decreases |s|
  {
    assert s[0..] == s;
    assert SaysAttempt(s) <==> |s| > |ATTEMPT_PREFIX| && ATTEMPT_PREFIX <= s && IsDigit(s[|ATTEMPT_PREFIX|]);
    if s != "" && !SaysAttempt(s) {
      FoundExactly(s[1..]);
      assert forall i :: 0 < i <= |s| ==> s[i..] == s[1..][i - 1..];
    }
  }

  /**
   * An outage that never ends: a fresh digest is tried four times, 5, 30 and
   * 120 minutes apart, stays pending until the fourth and then fails.
   */
  lemma {:induction false} OutageTakesFourCalls(attempt: nat, channel: Channel, sendings: seq<Sending>)
    requires attempt <= 3 && forall i :: 0 <= i < |sendings| ==> MayPass(channel, sendings[i])
    ensures var (d, outcomes) := RunCalls(RetriedTimes(attempt), channel, sendings);
      var left := 3 - attempt;
      && |outcomes| == (if |sendings| <= left then |sendings| else left + 1)
      && (if |sendings| <= left then d == RetriedTimes(attempt + |sendings|) else d.status == Failed)
      && forall i :: 0 <= i < |outcomes| ==>
          outcomes[i].retryAfterMinutes == (if i < left then Some([5, 30, 120][attempt + i]) else None)
    decreases |sendings|
  {
    hide Deliver, RetriedTimes;
    var d := RetriedTimes(attempt);
    assert d.status == Pending by { OneTry(attempt, channel, Sent); }
    if sendings != [] {
      assert MayPass(channel, sendings[0]);
      OneTry(attempt, channel, sendings[0]);
      RetriedAttempt(attempt);
      DecidedExactly(d, channel, sendings[0]);
      var (next, outcome) := Deliver(d, channel, sendings[0]);
      if next.status == Pending {
        OutageTakesFourCalls(attempt + 1, channel, sendings[1..]);
      }
      assert RunCalls(d, channel, sendings) ==
        (RunCalls(next, channel, sendings[1..]).0, [outcome] + RunCalls(next, channel, sendings[1..]).1);
    }
  }

  lemma RetriedAttempt(attempt: nat)
    ensures CurrentAttempt(RetriedTimes(attempt).failureReason) == attempt
  {
    hide FindAttempt, AttemptReason;
    if attempt > 0 {
      AttemptReadsBack(attempt);
    }
  }

  /** Only a call that never reaches the sender leaves a pending digest as it was. */
  lemma StuckExactly(d: Digest, channel: Channel, sending: Sending)
    requires d.status == Pending
    ensures Deliver(d, channel, sending).0 == d <==> sending == NotConfigured
  {
    hide FindAttempt;
    if sending.Refused? && Retry(d, sending).Some? {
      AttemptReadsBack(CurrentAttempt(d.failureReason) + 1);
    }
  }
}
