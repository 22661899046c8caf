/**
 * One pass of the due-email processor, as values: which emails are due, how
 * they are batched by recipient and minute, the combined message each batch
 * is sent as, and the state every stored email is left in.
 */
module Batching {
  import opened Wrappers
  import opened Grouping
  import opened Text
  import opened Emails

  /** What is handed to the sender. */
  datatype Message = Message(to: string, subject: string, text: string)

  const MinuteMs: int := 60 * 1000
  const HourMs: int := 60 * MinuteMs

  /** The UTC minute a time falls in (floor division, also before 1970). */
  function MinuteOf(t: int): (m: int)
    ensures m * MinuteMs <= t < m * MinuteMs + MinuteMs
  {
    t / MinuteMs
  }

  /** Batch key: recipient and due minute. */
  datatype BatchKey = BatchKey(to: string, minute: int)

  function KeyOf(e: Email): BatchKey {
    BatchKey(e.to, MinuteOf(e.nextRun))
  }

  /** A discovered email is its position in the store and its state there. */
  type Found = (nat, Email)

  function DueKey(p: Found): BatchKey {
    KeyOf(p.1)
  }

  /** The store position of a discovered email. */
  function Pos(p: Found): int {
    p.0
  }

  // ---------------------------------------------------------------------------
  // The batch key as written: the first 16 characters of toISOString().

  /** Start of year 0000 and of year 10000, in ms since the epoch (UTC). */
  const YearZeroStart: int := -62167219200000
  const YearTenThousandStart: int := 253402300800000

  /**
   * What the first 16 characters of `toISOString()` identify: in years 0000
   * to 9999 ("YYYY-MM-DDTHH:mm") the minute; outside them the expanded format
   * ("±YYYYYY-MM-DDTHH") spends two more characters on the year and the
   * prefix stops at the hour.
   */
  datatype IsoPrefix = FourDigitYear(minute: int) | ExpandedYear(hour: int)

  function IsoPrefixOf(t: int): IsoPrefix {
    if YearZeroStart <= t < YearTenThousandStart then FourDigitYear(t / MinuteMs)
    else ExpandedYear(t / HourMs)
  }

  /** The key `processDueEmails` builds, read as a (recipient, prefix) pair. */
  function IsoDueKey(p: Found): (string, IsoPrefix) {
    (p.1.to, IsoPrefixOf(p.1.nextRun))
  }

  // ---------------------------------------------------------------------------
  // Discovery and batching.

  /** The due query over the store, in store order. */
  function Discover(store: seq<Email>, now: int): (due: seq<Found>)
    ensures forall p :: p in due ==> p.0 < |store| && store[p.0] == p.1 && IsDue(p.1, now)
    ensures forall i :: 0 <= i < |store| && IsDue(store[i], now) ==> (i, store[i]) in due
    ensures (forall i :: 0 <= i < |store| ==> !IsDue(store[i], now)) ==> due == []
    decreases |store|
  {
    if store == [] then []
    else
      var n := |store| - 1;
      assert forall i :: 0 <= i < n ==> store[..n][i] == store[i];
      Discover(store[..n], now) + if IsDue(store[n], now) then [(n, store[n])] else []
  }

  /** The due list follows store order. */
  lemma {:induction false} DiscoverAscending(store: seq<Email>, now: int)
    ensures Ascending(Discover(store, now), Pos)
    decreases |store|
  {
    if store != [] {
      var n := |store| - 1;
      var prev := Discover(store[..n], now);
      DiscoverAscending(store[..n], now);
      if !IsDue(store[n], now) {
        assert Discover(store, now) == prev;
      } else {
        assert prev != [] ==> prev[|prev| - 1].0 < n by {
          if prev != [] {
            assert prev[|prev| - 1] in prev;
          }
        }
        AscendingSnoc<Found>(prev, (n, store[n]), Pos);
      }
    }
  }

  /** The batches of one pass, in order of first occurrence of their keys. */
  function Batches(store: seq<Email>, now: int): (gs: seq<seq<Found>>)
    ensures |gs| == |BatchKeys(store, now)|
  {
    GroupBy(Discover(store, now), DueKey)
  }

  function Members(g: seq<Found>): (es: seq<Email>)
    ensures |es| == |g| && forall j :: 0 <= j < |g| ==> es[j] == g[j].1
    decreases |g|
  {
    if g == [] then [] else Members(g[..|g| - 1]) + [g[|g| - 1].1]
  }

  /** The batch of due emails carrying key `k`, in store order. */
  function BatchOf(store: seq<Email>, now: int, k: BatchKey): seq<Email> {
    Members(Select(Discover(store, now), DueKey, k))
  }

  // ---------------------------------------------------------------------------
  // The combined message.

  const Separator: string := "\n---\n"
  const SubjectHead: string := "Your "
  const SubjectTail: string := " scheduled updates"

  function CombinedSubject(n: nat): string {
    SubjectHead + Decimal(n) + SubjectTail
  }

  /** The entry for the email numbered `number` (counting from 1). */
  function Entry(number: nat, e: Email): string {
    "#" + Decimal(number) + "\nSubject: " + e.subject + "\n" + e.text + "\n"
  }

  function Entries(batch: seq<Email>): (es: seq<string>)
    ensures |es| == |batch|
    decreases |batch|
  {
    if batch == [] then []
    else Entries(batch[..|batch| - 1]) + [Entry(|batch|, batch[|batch| - 1])]
  }

  /** The j-th entry is the j-th email's, numbered j + 1. */
  lemma {:induction false} EntriesAt(batch: seq<Email>, j: nat)
    requires j < |batch|
    ensures Entries(batch)[j] == Entry(j + 1, batch[j])
    decreases |batch|
  {
    var n := |batch| - 1;
    if j < n {
      EntriesAt(batch[..n], j);
      assert batch[..n][j] == batch[j];
    }
  }

  function CombinedText(batch: seq<Email>): string {
    Join(Entries(batch), Separator)
  }

  /** The one message a batch is sent as; an empty batch sends nothing. */
  function BatchMessage(batch: seq<Email>): (m: Option<Message>)
    ensures m.None? <==> batch == []
    ensures m.Some? ==> m.value.to == batch[0].to
  {
    if batch == [] then None
    else Some(Message(batch[0].to, CombinedSubject(|batch|), CombinedText(batch)))
  }

  /** The states of a batch after its one send: every email takes the same outcome. */
  function AfterBatch(batch: seq<Email>, r: SendResult, clock: int, nextMonth: int -> int): (after: seq<Email>)
    ensures |after| == |batch| && forall j :: 0 <= j < |batch| ==> after[j] == AfterSend(batch[j], r, clock, nextMonth)
    decreases |batch|
  {
    if batch == [] then []
    else AfterBatch(batch[..|batch| - 1], r, clock, nextMonth) + [AfterSend(batch[|batch| - 1], r, clock, nextMonth)]
  }

  /** The subject reads back, between its fixed head and tail, as the number of emails. */
  lemma SubjectCountsBatch(batch: seq<Email>)
    requires batch != []
    ensures var s := BatchMessage(batch).value.subject;
      |s| > |SubjectHead| + |SubjectTail| &&
      s[..|SubjectHead|] == SubjectHead && s[|s| - |SubjectTail|..] == SubjectTail &&
      (forall i :: |SubjectHead| <= i < |s| - |SubjectTail| ==> IsDigit(s[i])) &&
      DecimalValue(s[|SubjectHead|..|s| - |SubjectTail|]) == |batch|
  {
    var d := Decimal(|batch|);
    var s := SubjectHead + d + SubjectTail;
    assert s[|SubjectHead|..|s| - |SubjectTail|] == d;
    assert forall i :: |SubjectHead| <= i < |s| - |SubjectTail| ==> s[i] == d[i - |SubjectHead|];
    DecimalRoundTrip(|batch|);
  }

  /**
   * The body holds one entry per email, in batch order: the k-th email's
   * entry, numbered k + 1, starts at `Offset(Entries(batch), Separator, k)`.
   */
  lemma BodyListsBatchInOrder(batch: seq<Email>, k: nat)
    requires k < |batch|
    ensures var body, es := CombinedText(batch), Entries(batch);
      var o := Offset(es, Separator, k);
      o + |es[k]| <= |body| && body[o..o + |es[k]|] == Entry(k + 1, batch[k])
  {
    JoinPartAt(Entries(batch), Separator, k);
    EntriesAt(batch, k);
  }

  /** In the body, every entry but the last is followed by the separator. */
  lemma BodySeparatesEntries(batch: seq<Email>, k: nat)
    requires k + 1 < |batch|
    ensures var body, es := CombinedText(batch), Entries(batch);
      var e := Offset(es, Separator, k) + |es[k]|;
      e + |Separator| <= |body| && body[e..e + |Separator|] == Separator
  {
    JoinSeparatorAt(Entries(batch), Separator, k);
  }

  /** The body is exactly the entries and one separator between each two of them. */
  lemma BodyLength(batch: seq<Email>)
    requires batch != []
    ensures var es := Entries(batch);
      |BatchMessage(batch).value.text| == Offset(es, Separator, |es| - 1) + |es[|es| - 1]|
  {
    JoinLength(Entries(batch), Separator);
  }

  // ---------------------------------------------------------------------------
  // A whole pass.

  /** The message batch `g` is sent as, if any. */
  function MessageOf(g: seq<Found>): Option<Message> {
    BatchMessage(Members(g))
  }

  /** The messages sent for the batches `gs`, one per non-empty batch, in order. */
  function SentFor(gs: seq<seq<Found>>): seq<Message>
    decreases |gs|
  {
    if gs == [] then []
    else
      var last := BatchMessage(Members(gs[|gs| - 1]));
      SentFor(gs[..|gs| - 1]) + if last.Some? then [last.value] else []
  }

  /** The messages of a series of batches are the messages its batches yield. */
  lemma {:induction false} SentForIsPresent(gs: seq<seq<Found>>)
    ensures SentFor(gs) == Present(gs, MessageOf)
    decreases |gs|
  {
    if gs != [] {
      SentForIsPresent(gs[..|gs| - 1]);
    }
  }

  /** Every message a pass sends, in the order the batches are processed. */
  function Outbox(store: seq<Email>, now: int): seq<Message> {
    SentFor(Batches(store, now))
  }

  /** The state of one stored email after its batch (if it is due) has been processed. */
  function AfterPass(store: seq<Email>, i: nat, now: int, send: Message -> SendResult, nextMonth: int -> int): Email
    requires i < |store|
  {
    if !IsDue(store[i], now) then store[i]
    else
      match BatchMessage(BatchOf(store, now, KeyOf(store[i])))
      case None => store[i]
      case Some(m) => AfterSend(store[i], send(m), now, nextMonth)
  }

  /** The store after one pass at time `now`. */
  function PassOutcome(store: seq<Email>, now: int, send: Message -> SendResult, nextMonth: int -> int): (r: seq<Email>)
    ensures |r| == |store| && forall i :: 0 <= i < |store| ==> r[i] == AfterPass(store, i, now, send, nextMonth)
  {
    Outcomes(store, now, send, nextMonth, |store|)
  }

  /** The end-of-pass states of the first `n` stored emails. */
  function Outcomes(store: seq<Email>, now: int, send: Message -> SendResult, nextMonth: int -> int, n: nat)
    : (r: seq<Email>)
    requires n <= |store|
    ensures |r| == n && forall i :: 0 <= i < n ==> r[i] == AfterPass(store, i, now, send, nextMonth)
    decreases n
  {
    if n == 0 then []
    else Outcomes(store, now, send, nextMonth, n - 1) + [AfterPass(store, n - 1, now, send, nextMonth)]
  }

  // ---------------------------------------------------------------------------
  // Properties of a pass.

  /** Only due emails are picked up, and every due email is, in store order. */
  lemma DiscoverSelectsExactlyDue(store: seq<Email>, now: int, i: nat, e: Email)
    ensures (i, e) in Discover(store, now) <==> i < |store| && e == store[i] && IsDue(e, now)
  {
  }

  /** An email that appears once in a sequence of distinct elements is counted once. */
  lemma {:induction false} DistinctCountsOnce(s: seq<Found>, x: Found)
    requires Ascending(s, Pos) && x in s
    ensures multiset(s)[x] == 1
    decreases |s|
  {
    var n := |s| - 1;
    var init := s[..n];
    assert s == init + [s[n]];
    if x == s[n] {
      if x in init {
        var m :| 0 <= m < n && init[m] == x;
        AscendingAt(s, Pos, m, n);
      }
    } else {
      DistinctCountsOnce(init, x);
    }
  }

  /** No email due: nothing is sent and nothing changes. */
  lemma NoDueNoOp(store: seq<Email>, now: int, send: Message -> SendResult, nextMonth: int -> int)
    requires forall i :: 0 <= i < |store| ==> !IsDue(store[i], now)
    ensures Outbox(store, now) == []
    ensures PassOutcome(store, now, send, nextMonth) == store
  {
    assert Batches(store, now) == [];
  }

  /** Messages for a series of non-empty batches: exactly one per batch, in order. */
  lemma SentForEachBatch(gs: seq<seq<Found>>)
    requires forall j :: 0 <= j < |gs| ==> gs[j] != []
    ensures |SentFor(gs)| == |gs|
    ensures forall j :: 0 <= j < |gs| ==> SentFor(gs)[j] == BatchMessage(Members(gs[j])).value
  {
    forall j | 0 <= j < |gs|
      ensures |SentFor(gs)| == |gs| && Some(SentFor(gs)[j]) == BatchMessage(Members(gs[j]))
    {
      SentForAt(gs, j);
    }
    if gs == [] {
      assert SentFor(gs) == [];
    }
  }

  /** The message of the j-th of a series of non-empty batches. */
  lemma SentForAt(gs: seq<seq<Found>>, j: nat)
    requires forall j :: 0 <= j < |gs| ==> gs[j] != []
    requires j < |gs|
    ensures |SentFor(gs)| == |gs| && Some(SentFor(gs)[j]) == BatchMessage(Members(gs[j]))
  {
    forall i | 0 <= i < |gs|
      ensures MessageOf(gs[i]).Some?
    {
      assert |Members(gs[i])| == |gs[i]|;
    }
    PresentAt(gs, MessageOf, j);
    SentForIsPresent(gs);
  }

  /**
   * One send per batch: the pass sends exactly one message for each batch,
   * in batch order, addressed to the batch's recipient.
   */
  lemma OneMessagePerBatch(store: seq<Email>, now: int)
    ensures var gs, out := Batches(store, now), Outbox(store, now);
      |out| == |gs| &&
      forall j :: 0 <= j < |gs| ==>
        gs[j] != [] && out[j] == BatchMessage(Members(gs[j])).value && out[j].to == gs[j][0].1.to
  {
    BatchesNonEmpty(store, now);
    SentForEachBatch(Batches(store, now));
  }

  /** No batch is empty. */
  lemma BatchesNonEmpty(store: seq<Email>, now: int)
    ensures forall j :: 0 <= j < |Batches(store, now)| ==> Batches(store, now)[j] != []
  {
    forall j | 0 <= j < |Batches(store, now)|
      ensures Batches(store, now)[j] != []
    {
      GroupHead(Discover(store, now), DueKey, j);
    }
  }

  /**
   * The batches split the due emails by recipient and minute: all members of
   * a batch share both, and two batches differ in one of them.
   */
  lemma BatchesShareRecipientAndMinute(store: seq<Email>, now: int)
    ensures var gs := Batches(store, now);
      forall j :: 0 <= j < |gs| ==> gs[j] != []
    ensures var gs := Batches(store, now);
      forall j, p :: 0 <= j < |gs| && p in gs[j] ==>
        p.1.to == gs[j][0].1.to && MinuteOf(p.1.nextRun) == MinuteOf(gs[j][0].1.nextRun)
    ensures var gs := Batches(store, now);
      forall j1, j2 :: 0 <= j1 < j2 < |gs| ==>
        gs[j1][0].1.to != gs[j2][0].1.to || MinuteOf(gs[j1][0].1.nextRun) != MinuteOf(gs[j2][0].1.nextRun)
  {
    var due, ks, gs := Discover(store, now), BatchKeys(store, now), Batches(store, now);
    forall j | 0 <= j < |gs|
      ensures gs[j] != [] && DueKey(gs[j][0]) == ks[j] && forall p :: p in gs[j] ==> DueKey(p) == ks[j]
    {
      GroupHead(due, DueKey, j);
      GroupAt(due, DueKey, j);
    }
    forall j1, j2 | 0 <= j1 < j2 < |gs|
      ensures DueKey(gs[j1][0]) != DueKey(gs[j2][0])
    {
      KeysDistinct(due, DueKey, j1, j2);
    }
  }

  /** The keys of the batches of one pass, in processing order. */
  function BatchKeys(store: seq<Email>, now: int): seq<BatchKey> {
    Keys(Discover(store, now), DueKey)
  }

  /** The j-th batch holds exactly the due emails carrying the j-th key. */
  lemma BatchMembership(store: seq<Email>, now: int, j: nat, i: nat)
    requires j < |BatchKeys(store, now)| && i < |store|
    ensures |Batches(store, now)| == |BatchKeys(store, now)|
    ensures (i, store[i]) in Batches(store, now)[j] <==>
      IsDue(store[i], now) && KeyOf(store[i]) == BatchKeys(store, now)[j]
  {
    var due := Discover(store, now);
    GroupAt(due, DueKey, j);
    SelectCount(due, DueKey, BatchKeys(store, now)[j], (i, store[i]));
  }

  /** The k-th batch: due emails of the store, in store order, all carrying the k-th key. */
  lemma BatchFacts(store: seq<Email>, now: int, k: nat)
    requires k < |BatchKeys(store, now)|
    ensures |Batches(store, now)| == |BatchKeys(store, now)|
    ensures BatchOf(store, now, BatchKeys(store, now)[k]) == Members(Batches(store, now)[k])
    ensures forall p :: p in Batches(store, now)[k] ==>
      p.0 < |store| && store[p.0] == p.1 && IsDue(p.1, now) && KeyOf(p.1) == BatchKeys(store, now)[k]
    ensures Ascending(Batches(store, now)[k], Pos)
  {
    GroupAt(Discover(store, now), DueKey, k);
    BatchKeepsStoreOrder(store, now, k);
  }

  /** A member of the k-th batch ends the pass as that batch's one send decides. */
  lemma PassOutcomeInBatch(store: seq<Email>, now: int, send: Message -> SendResult, nextMonth: int -> int, k: nat, i: nat)
    requires k < |BatchKeys(store, now)| && i < |store|
    requires |Batches(store, now)| == |BatchKeys(store, now)| && (i, store[i]) in Batches(store, now)[k]
    ensures Members(Batches(store, now)[k]) != []
    ensures PassOutcome(store, now, send, nextMonth)[i] ==
      AfterSend(store[i], send(BatchMessage(Members(Batches(store, now)[k])).value), now, nextMonth)
  {
    BatchFacts(store, now, k);
  }

  /** Every due email lies in some batch, and there exactly once. */
  lemma DueEmailInOneBatch(store: seq<Email>, now: int, i: nat)
    requires i < |store| && IsDue(store[i], now)
    ensures var gs := Batches(store, now);
      exists j :: 0 <= j < |gs| && (i, store[i]) in gs[j] && multiset(gs[j])[(i, store[i])] == 1
  {
    var due, ks := Discover(store, now), BatchKeys(store, now);
    var x := (i, store[i]);
    assert x in due;
    var j :| 0 <= j < |ks| && ks[j] == KeyOf(store[i]);
    var g := Select(due, DueKey, ks[j]);
    assert multiset(g)[x] == 1 by {
      SelectCount(due, DueKey, ks[j], x);
      DiscoverAscending(store, now);
      DistinctCountsOnce(due, x);
    }
    GroupAt(due, DueKey, j);
    assert x in g && Batches(store, now)[j] == g;
  }

  /** No due email lies in two batches. */
  lemma DueEmailInNoOtherBatch(store: seq<Email>, now: int, i: nat, j1: nat, j2: nat)
    requires i < |store| && j1 < |Batches(store, now)| && j2 < |Batches(store, now)|
    requires (i, store[i]) in Batches(store, now)[j1] && (i, store[i]) in Batches(store, now)[j2]
    ensures j1 == j2
  {
    BatchMembership(store, now, j1, i);
    BatchMembership(store, now, j2, i);
    if j1 != j2 {
      if j1 < j2 {
        KeysDistinct(Discover(store, now), DueKey, j1, j2);
      } else {
        KeysDistinct(Discover(store, now), DueKey, j2, j1);
      }
    }
  }

  /** Two due emails share a batch exactly when they share recipient and minute. */
  lemma SameBatchIffSameKey(store: seq<Email>, now: int, i1: nat, i2: nat)
    requires i1 < |store| && IsDue(store[i1], now)
    requires i2 < |store| && IsDue(store[i2], now)
    ensures var gs := Batches(store, now);
      (exists j :: 0 <= j < |gs| && (i1, store[i1]) in gs[j] && (i2, store[i2]) in gs[j])
      <==> store[i1].to == store[i2].to && MinuteOf(store[i1].nextRun) == MinuteOf(store[i2].nextRun)
  {
    var due, ks, gs := Discover(store, now), BatchKeys(store, now), Batches(store, now);
    assert (i1, store[i1]) in due;
    var j :| 0 <= j < |ks| && ks[j] == KeyOf(store[i1]);
    BatchMembership(store, now, j, i1);
    BatchMembership(store, now, j, i2);
    forall j' | 0 <= j' < |gs| && (i1, store[i1]) in gs[j'] && (i2, store[i2]) in gs[j']
      ensures KeyOf(store[i1]) == KeyOf(store[i2])
    {
      BatchMembership(store, now, j', i1);
      BatchMembership(store, now, j', i2);
    }
  }

  /** Within a batch the emails keep their store order. */
  lemma BatchKeepsStoreOrder(store: seq<Email>, now: int, j: nat)
    requires j < |Batches(store, now)|
    ensures Ascending(Batches(store, now)[j], Pos)
  {
    var due := Discover(store, now);
    var k := Keys(due, DueKey)[j];
    GroupAt(due, DueKey, j);
    DiscoverAscending(store, now);
    SelectKeepsOrder(due, DueKey, k, Pos);
  }

  /**
   * A due email ends the pass in the state its batch's single send decides;
   * any other email is left as it was.
   */
  lemma PassDeliversEachDueEmail(store: seq<Email>, now: int, send: Message -> SendResult, nextMonth: int -> int, i: nat)
    requires i < |store|
    ensures !IsDue(store[i], now) ==> PassOutcome(store, now, send, nextMonth)[i] == store[i]
    ensures IsDue(store[i], now) ==>
      var batch := BatchOf(store, now, KeyOf(store[i]));
      store[i] in batch &&
      (forall e :: e in batch ==> e.to == store[i].to && MinuteOf(e.nextRun) == MinuteOf(store[i].nextRun)) &&
      PassOutcome(store, now, send, nextMonth)[i] == AfterSend(store[i], send(BatchMessage(batch).value), now, nextMonth)
  {
    if IsDue(store[i], now) {
      var k := KeyOf(store[i]);
      BatchOfHolds(store, now, i);
      BatchOfSharesKey(store, now, k);
      assert PassOutcome(store, now, send, nextMonth)[i] == AfterPass(store, i, now, send, nextMonth);
    }
  }

  /** A due email lies in the batch of its own key. */
  lemma BatchOfHolds(store: seq<Email>, now: int, i: nat)
    requires i < |store| && IsDue(store[i], now)
    ensures store[i] in BatchOf(store, now, KeyOf(store[i]))
  {
    var due := Discover(store, now);
    var k := KeyOf(store[i]);
    var g := Select(due, DueKey, k);
    SelectCount(due, DueKey, k, (i, store[i]));
    assert (i, store[i]) in g;
    var j :| 0 <= j < |g| && g[j] == (i, store[i]);
    assert Members(g)[j] == store[i];
  }

  /** Every email of the batch for key `k` carries that key. */
  lemma BatchOfSharesKey(store: seq<Email>, now: int, k: BatchKey)
    ensures forall e :: e in BatchOf(store, now, k) ==> KeyOf(e) == k
  {
    var g := Select(Discover(store, now), DueKey, k);
    forall e | e in BatchOf(store, now, k)
      ensures KeyOf(e) == k
    {
      var j :| 0 <= j < |g| && Members(g)[j] == e;
      assert g[j] in g;
    }
  }

  /** Two due emails are discovered both, in store order. */
  lemma DiscoverTwo(a: Email, b: Email, now: int)
    requires IsDue(a, now) && IsDue(b, now)
    ensures Discover([a, b], now) == [(0, a), (1, b)]
  {
    assert [a, b][..1] == [a];
    assert Discover([a], now) == [(0, a)] by {
      assert [a][..0] == [];
    }
  }

  /** A single batch sends its one message. */
  lemma SentForOne(g: seq<Found>)
    requires g != []
    ensures SentFor([g]) == [BatchMessage(Members(g)).value]
  {
    assert SentFor([g][..0]) == [];
  }

  /**
   * A due email alone in the store is sent as a batch of one: to its own
   * recipient, under the combined subject for one email, and its state
   * moves on by the outcome of that one send.
   */
  lemma OneEmailPass(e: Email, now: int, send: Message -> SendResult, nextMonth: int -> int)
    requires IsDue(e, now)
    ensures Outbox([e], now) == [Message(e.to, CombinedSubject(1), CombinedText([e]))]
    ensures PassOutcome([e], now, send, nextMonth) ==
      [AfterSend(e, send(Message(e.to, CombinedSubject(1), CombinedText([e]))), now, nextMonth)]
  {
    var x := (0, e);
    assert Discover([e], now) == [x] by {
      assert [e][..0] == [];
    }
    GroupByOne(x, DueKey);
    SentForOne([x]);
    assert Members([x]) == [e];
    var after := PassOutcome([e], now, send, nextMonth);
    assert after[0] == AfterPass([e], 0, now, send, nextMonth);
  }

  /** Two due emails with one key form a single batch. */
  lemma BatchesOfTwo(a: Email, b: Email, now: int)
    requires IsDue(a, now) && IsDue(b, now) && KeyOf(a) == KeyOf(b)
    ensures Batches([a, b], now) == [[(0, a), (1, b)]]
    ensures BatchOf([a, b], now, KeyOf(a)) == [a, b]
  {
    DiscoverTwo(a, b, now);
    GroupOfTwo((0, a), (1, b));
    MembersOfTwo((0, a), (1, b));
  }

  lemma MembersOfTwo(x: Found, y: Found)
    ensures Members([x, y]) == [x.1, y.1]
  {
    assert [x, y][..1] == [x];
  }

  /** Two found emails sharing a key form one group holding both. */
  lemma GroupOfTwo(x: Found, y: Found)
    requires DueKey(x) == DueKey(y)
    ensures GroupBy([x, y], DueKey) == [[x, y]]
    ensures Select([x, y], DueKey, DueKey(x)) == [x, y]
  {
    KeysOfTwo(x, y, DueKey);
    SelectTwo(x, y, DueKey);
  }

  /**
   * A one-off and a recurring email to the same address, due at the same
   * time t, are sent as one message "Your 2 scheduled updates" ...
   */
  lemma TwoEmailsOneMessage(a: Email, b: Email, t: int)
    requires a.status == Scheduled && b.status == Scheduled
    requires a.nextRun == t && b.nextRun == t && a.to == b.to
    ensures var out := Outbox([a, b], t);
      |out| == 1 && out[0].to == a.to && out[0].subject == CombinedSubject(2)
  {
    BatchesOfTwo(a, b, t);
    var g := [(0, a), (1, b)];
    SentForOne(g);
    assert Members(g) == [a, b];
  }

  /**
   * ... and when that message is delivered, the one-off email is sent and
   * the recurring one is due again a month on.
   */
  lemma TwoEmailsDelivered(a: Email, b: Email, t: int, nextMonth: int -> int)
    requires a.status == Scheduled && b.status == Scheduled
    requires a.nextRun == t && b.nextRun == t && a.to == b.to
    requires !a.isRecurring && b.isRecurring
    ensures var after := PassOutcome([a, b], t, m => Delivered, nextMonth);
      after[0].status == Sent && after[1].status == Scheduled && after[1].nextRun == nextMonth(t)
  {
    BatchesOfTwo(a, b, t);
    var send: Message -> SendResult := m => Delivered;
    var after := PassOutcome([a, b], t, send, nextMonth);
    assert BatchMessage([a, b]).Some?;
    assert after[0] == AfterPass([a, b], 0, t, send, nextMonth) == AfterSuccess(a, t, nextMonth);
    assert after[1] == AfterPass([a, b], 1, t, send, nextMonth) == AfterSuccess(b, t, nextMonth);
  }

  lemma LastHourOfYearMinusOne(t: int)
    requires t == YearZeroStart - HourMs
    ensures IsoPrefixOf(t) == IsoPrefixOf(t + MinuteMs) == ExpandedYear(-17268673)
    ensures MinuteOf(t) == -1036120380 && MinuteOf(t + MinuteMs) == -1036120379
  {
    assert t == -17268673 * HourMs;
    assert t + MinuteMs == -17268673 * HourMs + MinuteMs;
    assert t == -1036120380 * MinuteMs;
  }

  lemma IsoKeyMergesMinutesBeforeYearZero(a: Email, b: Email)
    requires a.status == Scheduled && b.status == Scheduled && a.to == b.to
    requires a.nextRun == YearZeroStart - HourMs && b.nextRun == a.nextRun + MinuteMs
    ensures MinuteOf(a.nextRun) != MinuteOf(b.nextRun)
    ensures |GroupBy(Discover([a, b], b.nextRun), IsoDueKey)| == 1
    ensures |Batches([a, b], b.nextRun)| == 2
  {
    var x, y := (0, a), (1, b);
    assert IsoDueKey(x) == IsoDueKey(y) && MinuteOf(a.nextRun) != MinuteOf(b.nextRun) by {
      LastHourOfYearMinusOne(a.nextRun);
    }
    DiscoverTwo(a, b, b.nextRun);
    KeysOfTwo(x, y, IsoDueKey);
    KeysOfTwo(x, y, DueKey);
  }
}
