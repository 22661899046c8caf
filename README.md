# Scheduled-email processor, modelled in Dafny

The backend of this application keeps scheduled emails in a document store.
Once a minute a pass runs (`processDueEmails`) and does the following:

- It looks up the emails that are due: status `scheduled` and `nextRun` at or before now.
- It groups them by recipient and by the UTC minute of `nextRun`. The key is built from the first 16 characters of `toISOString()`, which name the minute only in years 0000-9999; the model groups by the minute (see "## Findings").
- It sends each group as a single combined message (`processEmailGroup`).
- It updates every email of the group with the one outcome:
  - on success, a recurring email moves on by a calendar month and a one-off email is marked `sent`;
  - on failure, the attempt counter goes up, the error is recorded, and a retry is due five minutes later;
  - at the third attempt the email is `failed` for good.

A single email can also be sent on its own (`processEmail`).
- First its subscription is checked.
- When the subscription is missing, or has `sendEmail === false`, the email is `skipped`.
- Otherwise the email is sent under its own subject and goes through the same transitions.

`scheduleEmail` creates a one-off email, due at the requested time, when the request asks for delivery.

On the frontend, `apiUrl` puts a path under the API base and inserts a "/" when the path has none.

The modules:

- `Wrappers`: `Option`, and the values a partial function yields over a sequence.
- `Grouping`: lodash's `_.groupBy` walked with `for ... in`. This gives one group per key in order of first occurrence, with members in input order. The module also proves the partition lemmas.
- `Text`: decimal rendering of a count and `Array.prototype.join`, with read-back lemmas.
- `Emails`: the stored email as a value. It holds the delivery state machine, a series of passes seen by one email, the subscription check, and creation.
- `Batching`: one pass as values. It covers the due query, the batch key, the combined message, the messages a pass sends (`Outbox`), and the state each email ends in (`PassOutcome`).
- `Scheduler`: the store's documents as a `class` whose fields the operations update in place. It contains `ProcessEmailGroup`, `ProcessDueEmails`, `ProcessEmail` and `ScheduleEmail`, each proved against the `Batching` and `Emails` functions.
- `BaseUrl`: `apiUrl`, with the base as a parameter.

Other conventions:

- Times are integer milliseconds since the epoch.
- The calendar-month advance (`setMonth(getMonth() + 1)`) is a function parameter `nextMonth`.
- The sender is a function parameter `send` from message to outcome.
- The clock of a pass is a parameter.
- The database query is a sequence of documents.

## Model

| member | source | states |
|---|---|---|
| Wrappers.Present | backend/routes/mongoEmailScheduler.js:41-44 | the values yielded over a sequence are at most one per element |
| Wrappers.PresentAt | backend/routes/mongoEmailScheduler.js:41-44 | when every element yields a value, there is one per element and the j-th is the j-th element's |
| Emails.AfterSuccess | backend/routes/mongoEmailScheduler.js:71-81 | after a delivery, a recurring email stays scheduled with `nextRun` advanced a month and `lastSent` the clock; a one-off email becomes `sent` with `nextRun` kept; recipient, content, attempts and error are untouched |
| Emails.AfterFailure | backend/routes/mongoEmailScheduler.js:83-92 | after a failure, attempts go up by one and the error message is recorded; below 3 attempts the status is kept and `nextRun` is the clock plus 300000 ms; at 3 the email is `failed` |
| Emails.AfterSend | backend/routes/mongoEmailScheduler.js:64-92 | defines the dispatch on the send outcome: a delivery takes `AfterSuccess`, a failure `AfterFailure`; its properties are `AfterSendKeepsAttemptsConsistent` and `PassOutcomeInBatch` |
| Emails.AfterSkip | backend/routes/mongoEmailScheduler.js:105-108 | a skipped email has status `skipped`, is not due at any time, and keeps everything else |
| Emails.IsDue | backend/routes/mongoEmailScheduler.js:25-28 | defines the due query's condition: status `scheduled` and `nextRun` at or before now; `DiscoverSelectsExactlyDue` states that the pass picks up exactly these |
| Emails.Step | backend/routes/mongoEmailScheduler.js:22-92 | defines what one pass does to one email: a due email takes the pass's send outcome, any other is unchanged; `Run` chains it, and the `Run` lemmas below state its properties |
| Emails.Run | backend/routes/mongoEmailScheduler.js:15-19 | defines a series of passes, one per cron tick; `RunNeverLowersAttempts`, `RunKeepsAttemptsConsistent`, `SettledStaysSettled` and `ThreeFailuresFail` are about it |
| Emails.AfterSendKeepsAttemptsConsistent | backend/routes/mongoEmailScheduler.js:84-90 | one delivery, whatever its outcome, never lowers attempts and keeps them at most 3, reaching 3 only as `failed` |
| Emails.RunNeverLowersAttempts | backend/routes/mongoEmailScheduler.js:84 | over any series of passes the attempt counter never decreases |
| Emails.SettledStaysSettled | backend/routes/mongoEmailScheduler.js:25-28 | an email that is sent, skipped or failed is never changed by a later pass |
| Emails.RunKeepsAttemptsConsistent | backend/routes/mongoEmailScheduler.js:84-90 | over any series of passes attempts stay at most 3 and equal 3 only for a failed email |
| Emails.RecurringStaysScheduled | backend/routes/mongoEmailScheduler.js:72-76 | a recurring email that is always delivered stays scheduled with attempts and error unchanged |
| Emails.ThreeFailuresFail | backend/routes/mongoEmailScheduler.js:83-92 | three failed passes take a fresh email to `failed` with 3 attempts and the last error, and it is then never due |
| Emails.FailureRetriesAfterBackoff | backend/routes/mongoEmailScheduler.js:86-87 | below the ceiling a failed email is due again exactly from five minutes after the failure |
| Emails.SkippedIsFinal | backend/routes/mongoEmailScheduler.js:105-108 | a skipped email stays as it is through every later pass |
| Emails.WantsEmail | backend/routes/mongoEmailScheduler.js:105 | defines the subscription check: delivery only when the subscription exists and `sendEmail` is not `false`; `Scheduler.ProcessEmail` states both outcomes |
| Emails.NewEmail | backend/routes/mongoEmailScheduler.js:144-160 | no email exactly when `sendEmail` is falsy; otherwise a scheduled one-off email with the request's subscription, recipient, subject, text and time, `nextRun` equal to that time, and no attempts, error or send on record |
| Emails.NewEmailDueAtRequestedTime | backend/routes/mongoEmailScheduler.js:152-158 | a created email is due exactly from its requested time, with consistent attempts |
| Grouping.Select | backend/routes/mongoEmailScheduler.js:35-39 | a group holds only elements of the input that carry its key |
| Grouping.SelectCount | backend/routes/mongoEmailScheduler.js:35-39 | an element carrying the key is in its group as often as in the input; any other element is not in it at all |
| Grouping.Keys | backend/routes/mongoEmailScheduler.js:35-41 | the key of every element is among the group keys |
| Grouping.GroupBy | backend/routes/mongoEmailScheduler.js:35-39 | `_.groupBy`: one group per listed key; `GroupAt`, `GroupHead` and `SelectCount` state what each group holds |
| Grouping.KeysDistinct | backend/routes/mongoEmailScheduler.js:35-41 | no group key is listed twice |
| Grouping.KeyWitness | backend/routes/mongoEmailScheduler.js:35-41 | every group key belongs to some element |
| Grouping.GroupsOfAt | backend/routes/mongoEmailScheduler.js:35-42 | the group listed i-th for a series of keys selects the elements carrying the i-th key |
| Grouping.GroupAt | backend/routes/mongoEmailScheduler.js:35-42 | the i-th group selects exactly the elements with the i-th key |
| Grouping.GroupHead | backend/routes/mongoEmailScheduler.js:35-42 | every group is non-empty and headed by an element carrying its key |
| Grouping.GroupByOne | backend/routes/mongoEmailScheduler.js:35-39 | a single element makes a single group holding it |
| Grouping.KeysOfTwo | backend/routes/mongoEmailScheduler.js:35-39 | two elements give one key when their keys agree and two otherwise |
| Grouping.SelectTwo | backend/routes/mongoEmailScheduler.js:35-39 | two elements with one key are both in its group, in order |
| Grouping.GroupByEmpty | backend/routes/mongoEmailScheduler.js:35-44 | no elements give no groups |
| Grouping.AscendingAt | backend/routes/mongoEmailScheduler.js:35-39 | along a sequence ascending by a rank, an earlier element ranks below a later one |
| Grouping.AscendingSnoc | backend/routes/mongoEmailScheduler.js:35-39 | an element ranking above the last keeps a sequence ascending |
| Grouping.SelectKeepsOrder | backend/routes/mongoEmailScheduler.js:35-39 | a group keeps the input order |
| Text.DigitChar | backend/routes/mongoEmailScheduler.js:56 | a digit below ten becomes the character of that value |
| Text.Decimal | backend/routes/mongoEmailScheduler.js:56 | the rendering of a count is non-empty, all digits, with no leading zero |
| Text.DecimalRoundTrip | backend/routes/mongoEmailScheduler.js:56 | reading the rendering back gives the count |
| Text.DecimalInjective | backend/routes/mongoEmailScheduler.js:56 | different counts render differently |
| Text.JoinLength | backend/routes/mongoEmailScheduler.js:62 | a join is as long as the offset of its last part plus that part |
| Text.Join | backend/routes/mongoEmailScheduler.js:62 | defines `Array.prototype.join`; `JoinPartAt`, `JoinSeparatorAt` and `JoinLength` together fix every character of the result |
| Text.JoinPartAt | backend/routes/mongoEmailScheduler.js:62 | the k-th part of a join sits at its offset |
| Text.JoinSeparatorAt | backend/routes/mongoEmailScheduler.js:62 | every part of a join but the last is followed by one separator |
| Batching.MinuteOf | backend/routes/mongoEmailScheduler.js:34-38 | the minute of a time is the unique m with m*60000 <= t < (m+1)*60000, before 1970 as well |
| Batching.KeyOf | backend/routes/mongoEmailScheduler.js:34-38 | defines the intended batch key, recipient and UTC minute; `SameBatchIffSameKey` and `BatchesShareRecipientAndMinute` state its effect |
| Batching.IsoPrefixOf | backend/routes/mongoEmailScheduler.js:38 | defines, without computing the string, what the 16-character ISO prefix names: the minute in years 0000-9999 and the hour outside them; `IsoKeyMergesMinutesBeforeYearZero` uses it |
| Batching.IsoDueKey | backend/routes/mongoEmailScheduler.js:36-38 | defines the key as written, recipient and ISO prefix; `IsoKeyMergesMinutesBeforeYearZero` shows it merging two minutes |
| Batching.Discover | backend/routes/mongoEmailScheduler.js:25-28 | the due query returns exactly the emails that are scheduled with `nextRun <= now`, each with its position; if none is due it returns nothing (store order and uniqueness are `DiscoverAscending` and `DistinctCountsOnce`) |
| Batching.DiscoverAscending | backend/routes/mongoEmailScheduler.js:25-28 | the due list is in strictly increasing store position |
| Batching.DiscoverSelectsExactlyDue | backend/routes/mongoEmailScheduler.js:25-28 | an email is picked up exactly when it is in the store and due |
| Batching.Batches | backend/routes/mongoEmailScheduler.js:35-39 | there is one batch per distinct key |
| Batching.Members | backend/routes/mongoEmailScheduler.js:42 | the emails of a batch are its entries' states, in order |
| Batching.BatchOf | backend/routes/mongoEmailScheduler.js:35-42 | defines the batch of a key; `BatchOfHolds` and `BatchOfSharesKey` state who is in it |
| Batching.Entries | backend/routes/mongoEmailScheduler.js:57-61 | there is one entry per email of the batch |
| Batching.Entry | backend/routes/mongoEmailScheduler.js:60 | defines one entry: `#`, its number, the subject line and the text; `EntriesAt` and `BodyListsBatchInOrder` place it in the body |
| Batching.CombinedSubject | backend/routes/mongoEmailScheduler.js:56 | defines the subject `Your N scheduled updates`; `SubjectCountsBatch` reads N back |
| Batching.CombinedText | backend/routes/mongoEmailScheduler.js:57-62 | defines the body as the entries joined by "\n---\n"; `BodyListsBatchInOrder`, `BodySeparatesEntries` and `BodyLength` fix its contents |
| Batching.EntriesAt | backend/routes/mongoEmailScheduler.js:57-61 | entry j of a batch is `#(j+1)`, the subject line and the text of its j-th email |
| Batching.BatchMessage | backend/routes/mongoEmailScheduler.js:52-69 | an empty batch sends nothing; any other sends one message to its first email's recipient |
| Batching.AfterBatch | backend/routes/mongoEmailScheduler.js:71-92 | after the batch's one send, every email of the batch, position by position, takes that send's transition |
| Batching.SubjectCountsBatch | backend/routes/mongoEmailScheduler.js:56 | the subject is "Your " then digits that read back as the batch size then " scheduled updates" |
| Batching.BodyListsBatchInOrder | backend/routes/mongoEmailScheduler.js:57-62 | the body holds the entry numbered k+1 for the k-th email, at the offset of the k-th entry, in batch order |
| Batching.BodySeparatesEntries | backend/routes/mongoEmailScheduler.js:62 | in the body every entry but the last is followed by "\n---\n" |
| Batching.BodyLength | backend/routes/mongoEmailScheduler.js:57-62 | the body is exactly the entries with one separator between each two, so it holds N entries |
| Batching.PassOutcome | backend/routes/mongoEmailScheduler.js:22-48 | the pass keeps the number of stored emails, and each email ends in the state its own batch (or, if not due, nothing) decides |
| Batching.AfterPass | backend/routes/mongoEmailScheduler.js:41-92 | defines one email's end-of-pass state: unchanged if not due, otherwise its batch's send outcome applied; `PassOutcomeInBatch` and `PassDeliversEachDueEmail` are about it |
| Batching.SentFor | backend/routes/mongoEmailScheduler.js:41-44 | defines the messages of a series of batches, one per non-empty batch in order; `SentForEachBatch` and `SentForAt` state it |
| Batching.Outbox | backend/routes/mongoEmailScheduler.js:41-44 | defines every message one pass sends; `OneMessagePerBatch` and `Scheduler.ProcessDueEmails` state it |
| Batching.Outcomes | backend/routes/mongoEmailScheduler.js:22-48 | the first n end-of-pass states, position by position |
| Batching.DistinctCountsOnce | backend/routes/mongoEmailScheduler.js:25-28 | an entry of the due list, which is ascending by position, occurs in it exactly once |
| Batching.NoDueNoOp | backend/routes/mongoEmailScheduler.js:25-44 | with nothing due, nothing is sent and nothing changes |
| Batching.SentForEachBatch | backend/routes/mongoEmailScheduler.js:41-44 | non-empty batches produce exactly one message each, in order |
| Batching.SentForIsPresent | backend/routes/mongoEmailScheduler.js:41-44 | the messages of a series of batches are, in order, the messages its batches yield |
| Batching.SentForAt | backend/routes/mongoEmailScheduler.js:41-44 | the j-th message of a series of non-empty batches is the j-th batch's combined message |
| Batching.OneMessagePerBatch | backend/routes/mongoEmailScheduler.js:41-69 | a pass sends exactly one message per batch, in batch order, to the batch's recipient |
| Batching.BatchesNonEmpty | backend/routes/mongoEmailScheduler.js:35-39 | no batch is empty |
| Batching.BatchesShareRecipientAndMinute | backend/routes/mongoEmailScheduler.js:34-39 | batches are non-empty, the members of a batch share recipient and minute, and two batches differ in one of them |
| Batching.BatchMembership | backend/routes/mongoEmailScheduler.js:35-42 | the j-th batch holds exactly the due emails with the j-th key |
| Batching.BatchFacts | backend/routes/mongoEmailScheduler.js:35-42 | the k-th batch is non-empty, consists of due store emails with its key at their positions, and is ascending by store position |
| Batching.PassOutcomeInBatch | backend/routes/mongoEmailScheduler.js:41-92 | a member of a batch ends the pass as that batch's one send decides |
| Batching.DueEmailInOneBatch | backend/routes/mongoEmailScheduler.js:35-39 | every due email is in some batch, and there exactly once |
| Batching.DueEmailInNoOtherBatch | backend/routes/mongoEmailScheduler.js:35-39 | a due email is in no second batch |
| Batching.SameBatchIffSameKey | backend/routes/mongoEmailScheduler.js:34-39 | two due emails share a batch if and only if they share recipient and minute |
| Batching.BatchKeepsStoreOrder | backend/routes/mongoEmailScheduler.js:35-39 | a batch is ascending by store position |
| Batching.PassDeliversEachDueEmail | backend/routes/mongoEmailScheduler.js:22-92 | an email that is not due is unchanged; a due email is in its batch, whose members share its recipient and minute, and ends in the state that batch's single send decides |
| Batching.BatchOfHolds | backend/routes/mongoEmailScheduler.js:35-39 | a due email is in the batch of its own key |
| Batching.BatchOfSharesKey | backend/routes/mongoEmailScheduler.js:35-39 | every email of a batch carries its key |
| Batching.DiscoverTwo | backend/routes/mongoEmailScheduler.js:25-28 | two due emails are both found, in order |
| Batching.SentForOne | backend/routes/mongoEmailScheduler.js:41-69 | a single non-empty batch sends its message |
| Batching.OneEmailPass | backend/routes/mongoEmailScheduler.js:22-92 | a lone due email is sent as a batch of one under "Your 1 scheduled updates" and moves on by that send's outcome, the same transition the single-email path applies |
| Batching.BatchesOfTwo | backend/routes/mongoEmailScheduler.js:35-39 | two due emails with one key form one batch holding both |
| Batching.GroupOfTwo | backend/routes/mongoEmailScheduler.js:35-39 | two found emails with one key make one group |
| Batching.MembersOfTwo | backend/routes/mongoEmailScheduler.js:42 | the emails of two found entries are theirs, in order |
| Batching.TwoEmailsOneMessage | backend/routes/mongoEmailScheduler.js:35-69 | two emails to one address due at one time are sent as one message with the subject for 2 |
| Batching.TwoEmailsDelivered | backend/routes/mongoEmailScheduler.js:71-81 | when that message is delivered, the one-off email is sent and the recurring one is due again a month on |
| Batching.LastHourOfYearMinusOne | backend/routes/mongoEmailScheduler.js:38 | the last hour of year -1 and the minute after its start share the ISO prefix but not the minute |
| Batching.IsoKeyMergesMinutesBeforeYearZero | backend/routes/mongoEmailScheduler.js:35-39 | with the key as written, two emails due in different minutes fall into one batch; with the minute key, into two |
| Scheduler.States | backend/routes/mongoEmailScheduler.js:25-28 | the states of a document list, position by position |
| Scheduler.DistinctAt | backend/routes/mongoEmailScheduler.js:25-28 | different positions of the query result hold different documents |
| Scheduler.ScheduledEmail.RecordSuccess | backend/routes/mongoEmailScheduler.js:72-79 | a delivered document takes the success transition in place |
| Scheduler.ScheduledEmail.RecordFailure | backend/routes/mongoEmailScheduler.js:84-90 | a document whose send failed takes the failure transition in place |
| Scheduler.RecordDelivery | backend/routes/mongoEmailScheduler.js:71-81 | every document of the batch takes the success transition |
| Scheduler.RecordFailure | backend/routes/mongoEmailScheduler.js:83-92 | every document of the batch takes the same failure transition |
| Scheduler.ProcessEmailGroup | backend/routes/mongoEmailScheduler.js:51-98 | the batch's message is the combined one (none for an empty batch), and the documents' states become the batch's states after that one send (unchanged for an empty batch) |
| Scheduler.HandledNone | backend/routes/mongoEmailScheduler.js:41 | before the first batch the store is untouched |
| Scheduler.HandledStep | backend/routes/mongoEmailScheduler.js:41-44 | handling the k-th batch changes exactly its members, not handled before, by its one send |
| Scheduler.BatchUnhandled | backend/routes/mongoEmailScheduler.js:41-44 | the k-th batch is non-empty and finds its members still in their stored state |
| Scheduler.HandledBatch | backend/routes/mongoEmailScheduler.js:41-44 | handling the k-th batch applies its one send to its members and to no other email |
| Scheduler.HandledAll | backend/routes/mongoEmailScheduler.js:41-44 | after the last batch the store is in its end-of-pass state |
| Scheduler.ApplyBatch | backend/routes/mongoEmailScheduler.js:71-92 | applying a batch keeps the number of documents |
| Scheduler.DocsAt | backend/routes/mongoEmailScheduler.js:42 | the documents of a batch are the store's documents at its positions, one per member |
| Scheduler.DocsAtBatch | backend/routes/mongoEmailScheduler.js:42 | the documents of a batch are distinct documents of the store holding the batch's states |
| Scheduler.DocsAtDistinct | backend/routes/mongoEmailScheduler.js:42 | distinct documents at increasing positions are distinct |
| Scheduler.ProcessBatch | backend/routes/mongoEmailScheduler.js:42-43 | one loop iteration sends the batch's message and updates exactly its documents |
| Scheduler.BatchRecorded | backend/routes/mongoEmailScheduler.js:71-92 | once a batch's documents have recorded the outcome, the store is the batch applied to its old states |
| Scheduler.ApplyAll | backend/routes/mongoEmailScheduler.js:41-44 | applying the batches keeps the number of documents |
| Scheduler.HandledIsApplyAll | backend/routes/mongoEmailScheduler.js:41-44 | handling the first k batches is applying them in order |
| Scheduler.NextBatch | backend/routes/mongoEmailScheduler.js:41-44 | one more batch applies its send to the store and appends its message to those sent so far |
| Scheduler.BatchesApply | backend/routes/mongoEmailScheduler.js:41-44 | each batch, in order, finds its members still in their stored state, and all batches applied give the end-of-pass state |
| Scheduler.ProcessBatches | backend/routes/mongoEmailScheduler.js:41-44 | the loop sends one message per non-empty batch, in order, and leaves the store with all batches applied |
| Scheduler.ProcessDueEmails | backend/routes/mongoEmailScheduler.js:22-48 | one pass sends exactly `Outbox` and leaves every document in its `PassOutcome` state: not-due documents unchanged, each due document updated once by its batch's single send |
| Scheduler.ProcessEmail | backend/routes/mongoEmailScheduler.js:101-140 | nothing is sent and the document is skipped exactly when the subscription is missing or has `sendEmail === false`; otherwise the email's own recipient, subject and text are sent and the document takes the same transition as in a batch |
| Scheduler.ScheduleEmail | backend/routes/mongoEmailScheduler.js:143-163 | null exactly when `sendEmail` is falsy; otherwise a new document holding `NewEmail`'s email |
| BaseUrl.Clean | frontend/src/utils/BaseURL.jsx:4 | the cleaned path starts with "/"; it is the path when the path already does, and "/" followed by the path otherwise |
| BaseUrl.ApiUrl | frontend/src/utils/BaseURL.jsx:3-5 | the address starts with the base followed by "/"; after the base comes the path when it starts with "/" (length base+path), and otherwise "/" and the path (length base+path+1) |
| BaseUrl.ApiUrlIdempotent | frontend/src/utils/BaseURL.jsx:4-5 | adding the missing leading "/" by hand gives the same address |
| BaseUrl.ApiUrlDefault | frontend/src/utils/BaseURL.jsx:3-5 | the default empty path gives the base followed by "/" |
| BaseUrl.ApiUrlFixedPoint | frontend/src/utils/BaseURL.jsx:4-5 | the part after the base starts with "/" and rebuilds the same address |
| BaseUrl.ApiUrlSameAddress | frontend/src/utils/BaseURL.jsx:4-5 | two paths give one address exactly when they agree once cleaned |

## Left out

- The once-a-minute cron trigger. One pass is a method taking the time `now`.
- Mongo I/O:
  - the query, `findById`, `save` and `deleteMany` are not modelled as calls;
  - the query is a sequence of distinct documents, and the subscription lookup is an `Option`;
  - `save` cannot fail and is not a separate step.
- Save failures in the source land in the same `catch` as a send failure. A save that throws inside the success loop would then record a failure on the whole batch. Because save cannot fail here, this path is not modelled.
- Scheduler.ProcessDueEmails locates the documents of a batch by their position in the query result. The source holds the documents themselves.
- The outer `try/catch` of processDueEmails and scheduleEmail covers only I/O errors, which are not modelled.
- Scheduler.ProcessEmail: its one `try/catch` (lines 102-139) also catches a failed `Subscription.findById` or a failed `save`, and then applies the failure transition (attempts up by one, error recorded, retry or `failed`) as for a failed send. Here the lookup is an `Option` without an error case and `save` cannot fail, so only a failed send takes that path.
- Batching.IsoPrefixOf: the ISO string is not computed. The definition takes as given that "YYYY-MM-DDTHH:mm" names the UTC minute in years 0000-9999 and that "±YYYYYY-MM-DDTHH" names the UTC hour outside them.
- Batching.Batches: batches group by recipient and UTC minute, as the comment at line 34 intends. Outside years 0000-9999 the key as written (line 38) names only the hour, so there the modelled pass (`PassOutcome`, `Outbox`, `Scheduler.ProcessDueEmails`) can split a batch that the code as written sends as one message.
- The DELETE route and `getAllScheduledEmails`: a request wrapper without logic and a sorted query.
- Console logging.
- Real `Date` semantics:
  - `setMonth(getMonth() + 1)` in local time is the parameter `nextMonth`;
  - the representable `Date` range, outside which `toISOString` throws, is not modelled;
  - times are unbounded integers.
- Time is read once per pass: the source reads `new Date()` and `Date.now()` several times within a pass, but here one clock value serves for `now`, `lastSent` and the retry time.
- The sender is a deterministic function from message to outcome, and its error message is the `reason` string.
- `attempts` starts at 0, as the document model's default. backend/models/ScheduledEmail.js and backend/models/Subscription.js are not part of this model.
- The frontend environment lookup for the API base and the UI components. The base is a parameter of `BaseUrl.ApiUrl`.
- Emails.Subscription: `sendEmail` is `Option<bool>`; values other than a boolean or absence are not modelled.
- `for ... in` over `_.groupBy`'s result visits integer-like keys first. Batch keys contain `|` and are never integer-like, so the order is first occurrence.

## Findings

| source | as written | input that shows it | evidently intended | confidence | as-written member | corrected member |
|---|---|---|---|---|---|---|
| backend/routes/mongoEmailScheduler.js:38 | the batch key uses `toISOString().slice(0, 16)`; outside years 0000-9999 the expanded-year format spends two more characters on the year, so the prefix stops at the hour | two scheduled emails to one address, due at 1 hour and at 59 minutes before the start of year 0000 (year -1), processed at the later time | group by recipient and minute, as the comment says | not executed; such dates are far from practical use | Batching.IsoKeyMergesMinutesBeforeYearZero | Batching.BatchesShareRecipientAndMinute |
