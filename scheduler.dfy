/**
 * The scheduler proper: stored emails are documents whose fields are updated
 * in place, and one pass walks the batches of due documents, sends each
 * batch once and updates every document of the batch.
 *
 * The store query is a sequence of documents, the sender a function from
 * message to outcome, the clock a parameter; saving a document is the update
 * itself (a save cannot fail here).
 */
module Scheduler {
  import opened Wrappers
  import opened Grouping
  import opened Emails
  import opened Batching

  /** A stored scheduled email. */
  class ScheduledEmail {
    var subscriptionId: string
    var to: string
    var subject: string
    var text: string
    var scheduledDateTime: int
    var isRecurring: bool
    var nextRun: int
    var lastSent: Option<int>
    var status: Status
    var attempts: nat
    var errorMessage: Option<string>

    /** The document's fields as a value. */
    function State(): Email
      reads this
    {
      Email(subscriptionId, to, subject, text, scheduledDateTime, isRecurring, nextRun,
            lastSent, status, attempts, errorMessage)
    }

    constructor (e: Email)
      ensures State() == e
    {
      subscriptionId, to, subject, text := e.subscriptionId, e.to, e.subject, e.text;
      scheduledDateTime, isRecurring, nextRun := e.scheduledDateTime, e.isRecurring, e.nextRun;
      lastSent, status, attempts, errorMessage := e.lastSent, e.status, e.attempts, e.errorMessage;
    }

    /** A delivered send: a recurring email moves on a month, a one-off one is sent. */
    method RecordSuccess(clock: int, nextMonth: int -> int)
      modifies this
      ensures State() == AfterSuccess(old(State()), clock, nextMonth)
    {
      if isRecurring {
        nextRun := nextMonth(nextRun);
        lastSent := Some(clock);
      } else {
        status := Sent;
      }
    }

    /** A failed send: one more attempt, retried in five minutes or, after the last, failed. */
    method RecordFailure(clock: int, reason: string)
      modifies this
      ensures State() == AfterFailure(old(State()), clock, reason)
    {
      attempts := attempts + 1;
      errorMessage := Some(reason);
      if attempts < MaxAttempts {
        nextRun := clock + RetryDelay;
      } else {
        status := Failed;
      }
    }
  }

  /** The states of a sequence of documents. */
  function States(docs: seq<ScheduledEmail>): (s: seq<Email>)
    reads set d | d in docs
    ensures |s| == |docs| && forall i :: 0 <= i < |docs| ==> s[i] == docs[i].State()
    decreases |docs|
  {
    if docs == [] then []
    else States(docs[..|docs| - 1]) + [docs[|docs| - 1].State()]
  }

  /** No document appears twice, as in the result of one query. */
  predicate Distinct(docs: seq<ScheduledEmail>)
    decreases |docs|
  {
    docs == [] || (Distinct(docs[..|docs| - 1]) && docs[|docs| - 1] !in docs[..|docs| - 1])
  }

  /** Two positions of a distinct sequence hold different documents. */
  lemma {:induction false} DistinctAt(docs: seq<ScheduledEmail>, i: nat, j: nat)
    requires Distinct(docs) && i < |docs| && j < |docs| && i != j
    ensures docs[i] != docs[j]
    decreases |docs|
  {
    var n := |docs| - 1;
    var init := docs[..n];
    if i < n && j < n {
      DistinctAt(init, i, j);
    } else if i < n {
      assert init[i] in init;
    } else {
      assert init[j] in init;
    }
  }

  /** The success branch of processEmailGroup: every document of the batch records the delivery. */
  method RecordDelivery(group: seq<ScheduledEmail>, clock: int, nextMonth: int -> int)
    requires Distinct(group)
    modifies set d | d in group
    ensures forall j :: 0 <= j < |group| ==> group[j].State() == AfterSuccess(old(group[j].State()), clock, nextMonth)
  {
    for k := 0 to |group|
      invariant forall j :: 0 <= j < k ==> group[j].State() == AfterSuccess(old(group[j].State()), clock, nextMonth)
      invariant forall j :: k <= j < |group| ==> group[j].State() == old(group[j].State())
    {
      var email := group[k];
      forall j | 0 <= j < |group| && j != k
        ensures group[j] != email
      {
        DistinctAt(group, j, k);
      }
      email.RecordSuccess(clock, nextMonth);
    }
  }

  /** The failure branch of processEmailGroup: every document of the batch records the failure. */
  method RecordFailure(group: seq<ScheduledEmail>, clock: int, reason: string)
    requires Distinct(group)
    modifies set d | d in group
    ensures forall j :: 0 <= j < |group| ==> group[j].State() == AfterFailure(old(group[j].State()), clock, reason)
  {
    for k := 0 to |group|
      invariant forall j :: 0 <= j < k ==> group[j].State() == AfterFailure(old(group[j].State()), clock, reason)
      invariant forall j :: k <= j < |group| ==> group[j].State() == old(group[j].State())
    {
      var email := group[k];
      forall j | 0 <= j < |group| && j != k
        ensures group[j] != email
      {
        DistinctAt(group, j, k);
      }
      email.RecordFailure(clock, reason);
    }
  }

  /**
   * processEmailGroup: send the batch as one message; then, with the one
   * outcome, update every document of the batch. An empty batch is left alone.
   */
  method ProcessEmailGroup(group: seq<ScheduledEmail>, send: Message -> SendResult, clock: int, nextMonth: int -> int)
    returns (sent: Option<Message>)
    requires Distinct(group)
    modifies set d | d in group
    ensures sent == BatchMessage(old(States(group)))
    ensures States(group) ==
      if sent.Some? then AfterBatch(old(States(group)), send(sent.value), clock, nextMonth) else old(States(group))
  {
    if |group| == 0 {
      return None;
    }
    var recipient := group[0].to;
    var subject := CombinedSubject(|group|);
    var text := CombinedText(States(group));
    var message := Message(recipient, subject, text);
    sent := Some(message);
    match send(message)
    case Delivered =>
      RecordDelivery(group, clock, nextMonth);
    case SendFailed(reason) =>
      RecordFailure(group, clock, reason);
  }

  /**
   * The store part-way through a pass: the due emails of the first `k`
   * batches have their end-of-pass state, every other email its state before.
   */
  ghost function Handled(snapshot: seq<Email>, now: int, send: Message -> SendResult, nextMonth: int -> int, k: nat)
    : (r: seq<Email>)
    requires k <= |BatchKeys(snapshot, now)|
    ensures |r| == |snapshot|
  {
    var target, done := PassOutcome(snapshot, now, send, nextMonth), BatchKeys(snapshot, now)[..k];
    seq(|snapshot|, i requires 0 <= i < |snapshot| =>
      if IsDue(snapshot[i], now) && KeyOf(snapshot[i]) in done then target[i] else snapshot[i])
  }

  /** Before the first batch nothing is handled. */
  lemma HandledNone(snapshot: seq<Email>, now: int, send: Message -> SendResult, nextMonth: int -> int)
    ensures Handled(snapshot, now, send, nextMonth, 0) == snapshot
  {
  }

  /**
   * Handling the k-th batch changes exactly its members, which were not
   * handled before, to their end-of-pass state: the one send of the batch.
   */
  lemma HandledStep(snapshot: seq<Email>, now: int, send: Message -> SendResult, nextMonth: int -> int, k: nat, i: nat)
    requires k < |BatchKeys(snapshot, now)| && i < |snapshot|
    ensures |Batches(snapshot, now)| == |BatchKeys(snapshot, now)|
    ensures var before, after := Handled(snapshot, now, send, nextMonth, k), Handled(snapshot, now, send, nextMonth, k + 1);
      var g := Batches(snapshot, now)[k];
      if (i, snapshot[i]) in g then
        before[i] == snapshot[i] && Members(g) != [] &&
        after[i] == AfterSend(snapshot[i], send(BatchMessage(Members(g)).value), now, nextMonth)
      else after[i] == before[i]
  {
    var keys := BatchKeys(snapshot, now);
    assert keys[..k + 1] == keys[..k] + [keys[k]];
    BatchMembership(snapshot, now, k, i);
    if (i, snapshot[i]) in Batches(snapshot, now)[k] {
      PassOutcomeInBatch(snapshot, now, send, nextMonth, k, i);
      assert keys[k] !in keys[..k] by {
        forall m | 0 <= m < k
          ensures keys[m] != keys[k]
        {
          KeysDistinct(Discover(snapshot, now), DueKey, m, k);
        }
      }
    }
  }

  /** The k-th batch is not empty and finds its members not yet handled. */
  lemma BatchUnhandled(snapshot: seq<Email>, now: int, send: Message -> SendResult, nextMonth: int -> int, k: nat)
    requires k < |BatchKeys(snapshot, now)|
    ensures |Batches(snapshot, now)| == |BatchKeys(snapshot, now)|
    ensures Members(Batches(snapshot, now)[k]) != []
    ensures AtPositions(Handled(snapshot, now, send, nextMonth, k), Batches(snapshot, now)[k])
  {
    BatchFacts(snapshot, now, k);
    var g := Batches(snapshot, now)[k];
    GroupHead(Discover(snapshot, now), DueKey, k);
    forall p | p in g
      ensures p.0 < |snapshot| && Handled(snapshot, now, send, nextMonth, k)[p.0] == p.1
    {
      HandledStep(snapshot, now, send, nextMonth, k, p.0);
    }
  }

  /**
   * Handling the k-th batch applies its one send to its members and to no
   * other email.
   */
  lemma HandledBatch(snapshot: seq<Email>, now: int, send: Message -> SendResult, nextMonth: int -> int, k: nat)
    requires k < |BatchKeys(snapshot, now)|
    ensures |Batches(snapshot, now)| == |BatchKeys(snapshot, now)|
    ensures Members(Batches(snapshot, now)[k]) != []
    ensures var g := Batches(snapshot, now)[k];
      Handled(snapshot, now, send, nextMonth, k + 1) ==
      ApplyBatch(Handled(snapshot, now, send, nextMonth, k), g, send(BatchMessage(Members(g)).value), now, nextMonth)
  {
    BatchFacts(snapshot, now, k);
    var before := Handled(snapshot, now, send, nextMonth, k);
    var g := Batches(snapshot, now)[k];
    assert Members(g) != [] by {
      GroupHead(Discover(snapshot, now), DueKey, k);
    }
    var applied := ApplyBatch(before, g, send(BatchMessage(Members(g)).value), now, nextMonth);
    forall i | 0 <= i < |snapshot|
      ensures Handled(snapshot, now, send, nextMonth, k + 1)[i] == applied[i]
    {
      HandledStep(snapshot, now, send, nextMonth, k, i);
    }
  }

  /** After the last batch the store is in its end-of-pass state. */
  lemma HandledAll(snapshot: seq<Email>, now: int, send: Message -> SendResult, nextMonth: int -> int)
    ensures Handled(snapshot, now, send, nextMonth, |BatchKeys(snapshot, now)|) == PassOutcome(snapshot, now, send, nextMonth)
  {
    var keys := BatchKeys(snapshot, now);
    assert keys[..|keys|] == keys;
    forall i | 0 <= i < |snapshot| && IsDue(snapshot[i], now)
      ensures KeyOf(snapshot[i]) in keys
    {
      assert (i, snapshot[i]) in Discover(snapshot, now);
    }
  }

  /**
   * Each member of `group` is the state at its position in `states`, and the
   * positions strictly increase.
   */
  predicate AtPositions(states: seq<Email>, group: seq<Found>) {
    (forall p :: p in group ==> p.0 < |states| && states[p.0] == p.1) && Ascending(group, Pos)
  }

  /**
   * The states after a batch with the given send outcome: the emails at the
   * batch's positions take the outcome, the others keep their state.
   */
  function ApplyBatch(states: seq<Email>, group: seq<Found>, result: SendResult, clock: int, nextMonth: int -> int)
    : (r: seq<Email>)
    ensures |r| == |states|
  {
    seq(|states|, i requires 0 <= i < |states| =>
      if (i, states[i]) in group then AfterSend(states[i], result, clock, nextMonth) else states[i])
  }

  /** The documents at the positions of `group`. */
  function DocsAt(store: seq<ScheduledEmail>, group: seq<Found>): (docs: seq<ScheduledEmail>)
    requires forall j :: 0 <= j < |group| ==> group[j].0 < |store|
    ensures |docs| == |group| && forall j :: 0 <= j < |group| ==> docs[j] == store[group[j].0]
    decreases |group|
  {
    if group == [] then []
    else
      var n := |group| - 1;
      DocsAt(store, group[..n]) + [store[group[n].0]]
  }

  /** The documents of a batch are distinct documents of the store, holding the batch's states. */
  lemma DocsAtBatch(store: seq<ScheduledEmail>, group: seq<Found>)
    requires Distinct(store) && AtPositions(States(store), group)
    ensures var docs := DocsAt(store, group);
      Distinct(docs) && (forall d :: d in docs ==> d in store) && States(docs) == Members(group)
  {
    var docs := DocsAt(store, group);
    forall j | 0 <= j < |group|
      ensures docs[j].State() == group[j].1
    {
      assert group[j] in group;
    }
    assert States(docs) == Members(group);
    DocsAtDistinct(store, group);
  }

  /** Distinct documents at increasing positions are distinct. */
  lemma {:induction false} DocsAtDistinct(store: seq<ScheduledEmail>, group: seq<Found>)
    requires Distinct(store) && Ascending(group, Pos) && forall j :: 0 <= j < |group| ==> group[j].0 < |store|
    ensures Distinct(DocsAt(store, group))
    decreases |group|
  {
    if group != [] {
      var n: nat := |group| - 1;
      var init := group[..n];
      var prev, last := DocsAt(store, init), store[group[n].0];
      DocsAtDistinct(store, init);
      assert DocsAt(store, group)[..n] == prev;
      forall m | 0 <= m < n
        ensures prev[m] != last
      {
        AscendingAt(group, Pos, m, n);
        DistinctAt(store, group[m].0, group[n].0);
      }
    }
  }

  /**
   * One iteration of the loop of processDueEmails: look up the documents of
   * a batch by their positions and hand them to processEmailGroup. Every
   * document of the batch ends as the one send decides; the others are
   * left alone.
   */
  method ProcessBatch(store: seq<ScheduledEmail>, group: seq<Found>, now: int,
                      send: Message -> SendResult, nextMonth: int -> int)
    returns (sent: Option<Message>)
    requires Distinct(store)
    requires AtPositions(States(store), group)
    modifies set d | d in store
    ensures sent == BatchMessage(Members(group))
    ensures States(store) ==
      if sent.Some? then ApplyBatch(old(States(store)), group, send(sent.value), now, nextMonth)
      else old(States(store))
  {
    ghost var before := States(store);
    var docs := DocsAt(store, group);
    DocsAtBatch(store, group);
    sent := ProcessEmailGroup(docs, send, now, nextMonth);
    if sent.Some? {
      var result := send(sent.value);
      forall i | 0 <= i < |store| && store[i] !in docs
        ensures store[i].State() == before[i]
      {
        assert old(store[i].State()) == before[i];
      }
      BatchRecorded(store, group, before, docs, result, now, nextMonth);
    } else {
      assert States(store) == before;
    }
  }

  /**
   * Once the documents of a batch have recorded an outcome, and no other
   * document differs from the earlier states `before`, the store holds the
   * batch applied to those states.
   */
  lemma BatchRecorded(store: seq<ScheduledEmail>, group: seq<Found>, before: seq<Email>, docs: seq<ScheduledEmail>,
                      result: SendResult, clock: int, nextMonth: int -> int)
    requires Distinct(store) && |before| == |store| && AtPositions(before, group)
    requires docs == DocsAt(store, group) && States(docs) == AfterBatch(Members(group), result, clock, nextMonth)
    requires forall i :: 0 <= i < |store| && store[i] !in docs ==> store[i].State() == before[i]
    ensures States(store) == ApplyBatch(before, group, result, clock, nextMonth)
  {
    var applied := ApplyBatch(before, group, result, clock, nextMonth);
    forall i | 0 <= i < |store|
      ensures store[i].State() == applied[i]
    {
      if (i, before[i]) in group {
        var j :| 0 <= j < |group| && group[j] == (i, before[i]);
        assert docs[j] == store[i] && States(docs)[j] == docs[j].State();
      } else {
        forall j | 0 <= j < |group| ensures docs[j] != store[i] {
          assert group[j] in group;
          if group[j].0 != i {
            DistinctAt(store, group[j].0, i);
          }
        }
      }
    }
    assert States(store) == applied;
  }

  /** The states after the batches `gs`, each sent once, in order. */
  function ApplyAll(states: seq<Email>, gs: seq<seq<Found>>, send: Message -> SendResult, clock: int,
                    nextMonth: int -> int): (r: seq<Email>)
    ensures |r| == |states|
    decreases |gs|
  {
    if gs == [] then states
    else
      var prev := ApplyAll(states, gs[..|gs| - 1], send, clock, nextMonth);
      match BatchMessage(Members(gs[|gs| - 1]))
      case None => prev
      case Some(m) => ApplyBatch(prev, gs[|gs| - 1], send(m), clock, nextMonth)
  }

  /** Handling the first k batches is applying them in order. */
  lemma {:induction false} HandledIsApplyAll(snapshot: seq<Email>, now: int, send: Message -> SendResult,
                                             nextMonth: int -> int, k: nat)
    requires k <= |BatchKeys(snapshot, now)|
    ensures Handled(snapshot, now, send, nextMonth, k) == ApplyAll(snapshot, Batches(snapshot, now)[..k], send, now, nextMonth)
  {
    if k == 0 {
      HandledNone(snapshot, now, send, nextMonth);
    } else {
      HandledIsApplyAll(snapshot, now, send, nextMonth, k - 1);
      HandledBatch(snapshot, now, send, nextMonth, k - 1);
      NextBatch(snapshot, Batches(snapshot, now), send, now, nextMonth, k - 1);
    }
  }

  /** One more batch of a series: its message, if any, is sent next and applied to the states so far. */
  lemma NextBatch(states: seq<Email>, gs: seq<seq<Found>>, send: Message -> SendResult, clock: int,
                  nextMonth: int -> int, k: nat)
    requires k < |gs|
    ensures var prev, m := ApplyAll(states, gs[..k], send, clock, nextMonth), BatchMessage(Members(gs[k]));
      ApplyAll(states, gs[..k + 1], send, clock, nextMonth) ==
        (if m.Some? then ApplyBatch(prev, gs[k], send(m.value), clock, nextMonth) else prev) &&
      SentFor(gs[..k + 1]) == SentFor(gs[..k]) + (if m.Some? then [m.value] else [])
  {
    assert gs[..k + 1][..k] == gs[..k];
  }

  /**
   * The batches of a pass, applied in order: each finds its members still
   * in their stored state, and all of them together give the end-of-pass
   * state.
   */
  lemma BatchesApply(snapshot: seq<Email>, now: int, send: Message -> SendResult, nextMonth: int -> int)
    ensures var gs := Batches(snapshot, now);
      forall k :: 0 <= k < |gs| ==> AtPositions(ApplyAll(snapshot, gs[..k], send, now, nextMonth), gs[k])
    ensures ApplyAll(snapshot, Batches(snapshot, now), send, now, nextMonth) == PassOutcome(snapshot, now, send, nextMonth)
  {
    var gs := Batches(snapshot, now);
    forall k | 0 <= k < |gs|
      ensures AtPositions(ApplyAll(snapshot, gs[..k], send, now, nextMonth), gs[k])
    {
      HandledIsApplyAll(snapshot, now, send, nextMonth, k);
      BatchUnhandled(snapshot, now, send, nextMonth, k);
    }
    HandledIsApplyAll(snapshot, now, send, nextMonth, |gs|);
    HandledAll(snapshot, now, send, nextMonth);
    assert gs[..|gs|] == gs;
  }

  /**
   * The loop of processDueEmails over the batches: each batch is handed to
   * processEmailGroup in turn, and its message, if any, is recorded.
   */
  method ProcessBatches(store: seq<ScheduledEmail>, groups: seq<seq<Found>>, now: int,
                        send: Message -> SendResult, nextMonth: int -> int)
    returns (outbox: seq<Message>)
    requires Distinct(store)
    requires forall k :: 0 <= k < |groups| ==>
      AtPositions(ApplyAll(States(store), groups[..k], send, now, nextMonth), groups[k])
    modifies set d | d in store
    ensures outbox == SentFor(groups)
    ensures States(store) == ApplyAll(old(States(store)), groups, send, now, nextMonth)
  {
    ghost var snapshot := States(store);
    outbox := [];
    for k := 0 to |groups|
      invariant outbox == SentFor(groups[..k])
      invariant States(store) == ApplyAll(snapshot, groups[..k], send, now, nextMonth)
    {
      var sent := ProcessBatch(store, groups[k], now, send, nextMonth);
      NextBatch(snapshot, groups, send, now, nextMonth, k);
      if sent.Some? {
        outbox := outbox + [sent.value];
      }
    }
    assert groups[..|groups|] == groups;
  }

  /**
   * processDueEmails: one pass at time `now` over the documents of the store.
   * Every batch of due documents is sent once and its documents updated;
   * the messages sent are returned in order.
   */
  method ProcessDueEmails(store: seq<ScheduledEmail>, now: int, send: Message -> SendResult, nextMonth: int -> int)
    returns (outbox: seq<Message>)
    requires Distinct(store)
    modifies set d | d in store
    ensures outbox == Outbox(old(States(store)), now)
    ensures States(store) == PassOutcome(old(States(store)), now, send, nextMonth)
  {
    var snapshot := States(store);
    var groups := Batches(snapshot, now);
    BatchesApply(snapshot, now, send, nextMonth);
    outbox := ProcessBatches(store, groups, now, send, nextMonth);
  }

  // ---------------------------------------------------------------------------
  // The single-email path and creation.

  /**
   * processEmail: when the subscription check declines, the document is
   * marked skipped and nothing is sent; otherwise the email is sent as it
   * is, under its own subject, and the outcome updates the document exactly
   * as in a batch.
   */
  method ProcessEmail(email: ScheduledEmail, sub: Option<Subscription>, send: Message -> SendResult,
                      clock: int, nextMonth: int -> int)
    returns (sent: Option<Message>)
    modifies email
    ensures sent.None? <==> !WantsEmail(sub)
    ensures sent.Some? ==> sent.value == Message(old(email.to), old(email.subject), old(email.text))
    ensures email.State() ==
      if sent.Some? then AfterSend(old(email.State()), send(sent.value), clock, nextMonth)
      else AfterSkip(old(email.State()))
  {
    if sub.None? || sub.value.sendEmail == Some(false) {
      email.status := Skipped;
      return None;
    }
    var message := Message(email.to, email.subject, email.text);
    sent := Some(message);
    match send(message)
    case Delivered =>
      email.RecordSuccess(clock, nextMonth);
    case SendFailed(reason) =>
      email.RecordFailure(clock, reason);
  }

  /**
   * scheduleEmail: no document unless delivery was requested; otherwise a
   * new document holding the email the request describes.
   */
  method ScheduleEmail(req: ScheduleRequest) returns (saved: ScheduledEmail?)
    ensures saved == null <==> !req.sendEmail
    ensures saved != null ==> fresh(saved) && NewEmail(req) == Some(saved.State())
  {
    if !req.sendEmail {
      return null;
    }
    saved := new ScheduledEmail(Email(req.subscriptionId, req.to, req.subject, req.text,
                                      req.scheduledDateTime, false, req.scheduledDateTime,
                                      None, Scheduled, 0, None));
  }
}
