/**
 * A scheduled email, its delivery state machine and its creation.
 *
 * Times are integer counts of milliseconds since the Unix epoch, as a
 * JavaScript `Date` holds them. Advancing a date by one calendar month
 * (`setMonth(getMonth() + 1)` in local time) is not modelled: it is the
 * parameter `nextMonth` wherever it is needed.
 */
module Emails {
  import opened Wrappers

  datatype Status = Scheduled | Sent | Skipped | Failed

  /** The stored state of one scheduled email. */
  datatype Email = Email(
    subscriptionId: string,
    to: string,
    subject: string,
    text: string,
    scheduledDateTime: int,
    isRecurring: bool,
    nextRun: int,
    lastSent: Option<int>,
    status: Status,
    attempts: nat,
    errorMessage: Option<string>)

  /** What the sender reports: delivered, or failed with the error's message. */
  datatype SendResult = Delivered | SendFailed(reason: string)

  /** A delivery that fails for the third time is final. */
  const MaxAttempts: nat := 3

  /** The backoff after a failed delivery: five minutes. */
  const RetryDelay: int := 5 * 60 * 1000

  /** The due query: status `scheduled` and `nextRun <= now`. */
  predicate IsDue(e: Email, now: int) {
    e.status == Scheduled && e.nextRun <= now
  }

  /** Recipient, content, subscription, original time and recurrence are never changed by delivery. */
  predicate SameMessage(e: Email, e': Email) {
    e'.subscriptionId == e.subscriptionId && e'.to == e.to && e'.subject == e.subject &&
    e'.text == e.text && e'.scheduledDateTime == e.scheduledDateTime && e'.isRecurring == e.isRecurring
  }

  /**
   * The state after a successful delivery at time `clock`: a recurring email
   * moves on by a month and records when it was sent, staying scheduled; any
   * other is marked sent. Failure accounting is untouched.
   */
  function AfterSuccess(e: Email, clock: int, nextMonth: int -> int): (e': Email)
    ensures SameMessage(e, e')
    ensures e'.attempts == e.attempts && e'.errorMessage == e.errorMessage
    ensures e.isRecurring ==>
      e'.status == e.status && e'.nextRun == nextMonth(e.nextRun) && e'.lastSent == Some(clock)
    ensures !e.isRecurring ==>
      e'.status == Sent && e'.nextRun == e.nextRun && e'.lastSent == e.lastSent
  {
    if e.isRecurring then e.(nextRun := nextMonth(e.nextRun), lastSent := Some(clock))
    else e.(status := Sent)
  }

  /**
   * The state after a failed delivery at time `clock`: one more attempt and
   * the error recorded; below the ceiling a retry five minutes later,
   * at the ceiling the email is failed for good.
   */
  function AfterFailure(e: Email, clock: int, reason: string): (e': Email)
    ensures SameMessage(e, e') && e'.lastSent == e.lastSent
    ensures e'.attempts == e.attempts + 1 && e'.errorMessage == Some(reason)
    ensures e'.attempts < MaxAttempts ==> e'.status == e.status && e'.nextRun == clock + RetryDelay
    ensures e'.attempts >= MaxAttempts ==> e'.status == Failed && e'.nextRun == e.nextRun
  {
    var tried := e.(attempts := e.attempts + 1, errorMessage := Some(reason));
    if tried.attempts < MaxAttempts then tried.(nextRun := clock + RetryDelay)
    else tried.(status := Failed)
  }

  /** The state after a delivery with outcome `r`. */
  function AfterSend(e: Email, r: SendResult, clock: int, nextMonth: int -> int): Email
  {
    match r
    case Delivered => AfterSuccess(e, clock, nextMonth)
    case SendFailed(reason) => AfterFailure(e, clock, reason)
  }

  /** The state after the subscription check declined delivery. */
  function AfterSkip(e: Email): (e': Email)
    ensures e'.status == Skipped && forall now :: !IsDue(e', now)
    ensures SameMessage(e, e') && e'.nextRun == e.nextRun && e'.lastSent == e.lastSent
    ensures e'.attempts == e.attempts && e'.errorMessage == e.errorMessage
  {
    e.(status := Skipped)
  }

  /** Attempts never go down and reach the ceiling only as a failed email. */
  predicate AttemptsConsistent(e: Email) {
    e.attempts <= MaxAttempts && (e.attempts == MaxAttempts ==> e.status == Failed)
  }

  /** A delivery, whatever its outcome, keeps the attempt counter consistent. */
  lemma AfterSendKeepsAttemptsConsistent(e: Email, r: SendResult, clock: int, nextMonth: int -> int)
    requires AttemptsConsistent(e) && e.status == Scheduled
    ensures AttemptsConsistent(AfterSend(e, r, clock, nextMonth))
    ensures AfterSend(e, r, clock, nextMonth).attempts >= e.attempts
  {
  }

  // ---------------------------------------------------------------------------
  // The life of one email over a series of scheduler passes.

  /** One pass of the scheduler as seen by one email: when it runs and what the sender says. */
  datatype Pass = Pass(clock: int, result: SendResult)

  /** One pass: a due email is delivered with the pass's outcome; any other is left alone. */
  function Step(e: Email, p: Pass, nextMonth: int -> int): Email
  {
    if IsDue(e, p.clock) then AfterSend(e, p.result, p.clock, nextMonth) else e
  }

  /** The state after the passes `ps`, in order. */
  function Run(e: Email, ps: seq<Pass>, nextMonth: int -> int): Email
    decreases |ps|
  {
    if ps == [] then e else Run(Step(e, ps[0], nextMonth), ps[1..], nextMonth)
  }

  /** The attempt counter never decreases. */
  lemma {:induction false} RunNeverLowersAttempts(e: Email, ps: seq<Pass>, nextMonth: int -> int)
    ensures Run(e, ps, nextMonth).attempts >= e.attempts
    decreases |ps|
  {
    if ps != [] {
      RunNeverLowersAttempts(Step(e, ps[0], nextMonth), ps[1..], nextMonth);
    }
  }

  /** Sent, skipped and failed are final: no later pass changes such an email. */
  lemma {:induction false} SettledStaysSettled(e: Email, ps: seq<Pass>, nextMonth: int -> int)
    requires e.status != Scheduled
    ensures Run(e, ps, nextMonth) == e
    decreases |ps|
  {
    if ps != [] {
      SettledStaysSettled(e, ps[1..], nextMonth);
    }
  }

  /** The attempt counter stays consistent, in particular never exceeds the ceiling. */
  lemma {:induction false} RunKeepsAttemptsConsistent(e: Email, ps: seq<Pass>, nextMonth: int -> int)
    requires AttemptsConsistent(e)
    ensures AttemptsConsistent(Run(e, ps, nextMonth))
    decreases |ps|
  {
    if ps != [] {
      var e' := Step(e, ps[0], nextMonth);
      if IsDue(e, ps[0].clock) {
        AfterSendKeepsAttemptsConsistent(e, ps[0].result, ps[0].clock, nextMonth);
      }
      RunKeepsAttemptsConsistent(e', ps[1..], nextMonth);
    }
  }

  /**
   * A recurring email that is always delivered stays scheduled, with its
   * failure accounting untouched, however many passes it goes through.
   */
  lemma {:induction false} RecurringStaysScheduled(e: Email, ps: seq<Pass>, nextMonth: int -> int)
    requires e.isRecurring && e.status == Scheduled
    requires forall i :: 0 <= i < |ps| ==> ps[i].result == Delivered
    ensures Run(e, ps, nextMonth).status == Scheduled
    ensures Run(e, ps, nextMonth).attempts == e.attempts
    ensures Run(e, ps, nextMonth).errorMessage == e.errorMessage
    decreases |ps|
  {
    if ps != [] {
      RecurringStaysScheduled(Step(e, ps[0], nextMonth), ps[1..], nextMonth);
    }
  }

  /**
   * Three failed deliveries, each in a pass at or after the time the email
   * was due, take a fresh email to `failed` with three attempts and the last
   * error; after that it is never due again.
   */
  lemma ThreeFailuresFail(e: Email, c1: int, c2: int, c3: int, r1: string, r2: string, r3: string, nextMonth: int -> int)
    requires e.status == Scheduled && e.attempts == 0
    requires e.nextRun <= c1 && c1 + RetryDelay <= c2 && c2 + RetryDelay <= c3
    ensures var e' := Run(e, [Pass(c1, SendFailed(r1)), Pass(c2, SendFailed(r2)), Pass(c3, SendFailed(r3))], nextMonth);
      e'.status == Failed && e'.attempts == 3 && e'.errorMessage == Some(r3) &&
      forall now :: !IsDue(e', now)
  {
    var ps := [Pass(c1, SendFailed(r1)), Pass(c2, SendFailed(r2)), Pass(c3, SendFailed(r3))];
    var e1 := AfterFailure(e, c1, r1);
    var e2 := AfterFailure(e1, c2, r2);
    assert Run(e, ps, nextMonth) == Run(e1, ps[1..], nextMonth);
    assert ps[1..][1..] == ps[2..];
    assert Run(e1, ps[1..], nextMonth) == Run(e2, ps[2..], nextMonth);
    var e3 := AfterFailure(e2, c3, r3);
    assert Run(e2, ps[2..], nextMonth) == Run(e3, [], nextMonth);
  }

  /** Before the ceiling, a failed email is due again exactly five minutes after the failure. */
  lemma FailureRetriesAfterBackoff(e: Email, clock: int, reason: string, now: int)
    requires e.status == Scheduled && e.attempts + 1 < MaxAttempts
    ensures IsDue(AfterFailure(e, clock, reason), now) <==> clock + RetryDelay <= now
  {
  }

  // ---------------------------------------------------------------------------
  // The subscription check of the single-email path.

  /** A subscription as the check reads it: its `sendEmail` flag may be absent. */
  datatype Subscription = Subscription(sendEmail: Option<bool>)

  /**
   * Delivery goes ahead unless the subscription is missing or its flag is
   * exactly `false` (an absent flag does not stop it).
   */
  predicate WantsEmail(sub: Option<Subscription>) {
    sub.Some? && sub.value.sendEmail != Some(false)
  }

  /** A skipped email stays as it is through every later pass. */
  lemma SkippedIsFinal(e: Email, ps: seq<Pass>, nextMonth: int -> int)
    ensures Run(AfterSkip(e), ps, nextMonth) == AfterSkip(e)
  {
    SettledStaysSettled(AfterSkip(e), ps, nextMonth);
  }

  // ---------------------------------------------------------------------------
  // Creation.

  /**
   * A request to schedule an email. `sendEmail` is the request's flag as
   * JavaScript truthiness reads it.
   */
  datatype ScheduleRequest = ScheduleRequest(
    sendEmail: bool,
    subscriptionId: string,
    to: string,
    subject: string,
    text: string,
    scheduledDateTime: int)

  /**
   * The email a request creates: none when delivery was not requested;
   * otherwise a one-off email, scheduled, due at the requested time, with no
   * attempts, no error and no send on record.
   */
  function NewEmail(req: ScheduleRequest): (r: Option<Email>)
    ensures r.None? <==> !req.sendEmail
    ensures r.Some? ==>
      var e := r.value;
      e.subscriptionId == req.subscriptionId && e.to == req.to && e.subject == req.subject &&
      e.text == req.text && e.scheduledDateTime == req.scheduledDateTime
    ensures r.Some? ==>
      var e := r.value;
      e.status == Scheduled && !e.isRecurring && e.nextRun == req.scheduledDateTime &&
      e.attempts == 0 && e.errorMessage == None && e.lastSent == None
  {
    if !req.sendEmail then None
    else Some(Email(req.subscriptionId, req.to, req.subject, req.text, req.scheduledDateTime,
                    false, req.scheduledDateTime, None, Scheduled, 0, None))
  }

  /** A created email becomes due exactly at its requested time, with a consistent attempt counter. */
  lemma NewEmailDueAtRequestedTime(req: ScheduleRequest, now: int)
    requires req.sendEmail
    ensures AttemptsConsistent(NewEmail(req).value)
    ensures IsDue(NewEmail(req).value, now) <==> req.scheduledDateTime <= now
  {
  }
}
