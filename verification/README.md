# Tracking engine of the LFX email service: a Dafny model and its proofs

The service sends mail and tracks it in two JetStream key-value buckets shared by
all replicas: one index of email ids per group, one record per email. Every change
to an existing value is a compare-and-set on the revision that was read. SES
engagement events arrive through a queue that redelivers, and update the records.
This project models that engine and proves what holds in every interleaving.

| file | models |
|---|---|
| `Wire.dfy` | int64 counters, encoded widths, timestamps, keys and ids |
| `JsonText.dfy`, `RecordText.dfy` | the texts behind the widths: decimals, RFC 3339 instants, escaped strings, the index value, whole records |
| `KvBucket.dfy` | one revisioned key of a bucket |
| `GroupIndex.dfy` | concurrent `AppendToGroup` calls in a hostile environment |
| `SendRun.dfy` | `send_email`: handle check, send, index append, record write, reply |
| `Record.dfy`, `RecipientRecord.dfy` | the recipient record, `applyEngagementEvent` and `compactOpenedAtList`, as values and in place |
| `EventMeaning.dfy`, `Compaction.dfy`, `Budget.dfy`, `Counting.dfy`, `Convergence.dfy` | what the record state machine guarantees |
| `UpdateProgram.dfy`, `RecordRun.dfy`, `RecordGuarantees.dfy` | concurrent engagement handlers, queue redelivery and deletion on one record |
| `KvStore.dfy` | the store methods and the two handlers as imperative code against scripted buckets |
| `Scan.dfy`, `GroupReaders.dfy`, `TrackingStoreMock.dfy` | the 16-slot scan, the size-limited reply, analytics, paging, the in-memory reference store |
| `Poller.dfy`, `ReadSlots.dfy` | the SQS loop, the read-slot semaphore with its drain |
| `Redact.dfy` | the single-pass address replacer |

## How the concurrent models work

One call is a small program given by pure step functions (`GroupIndex.Begin`,
`AfterRead`, `AfterWrite`; `UpdateProgram.AfterGet`, `AfterUpdate`). The imperative
methods in `KvStore.dfy` are proved to execute exactly these programs for every
sequence of replies, and the concurrent models interleave any number of them with the
environment. A read may return any earlier entry of the key or fail. A write that was
sent stays on the network for good: it may take effect now, later, again or never, and
an error may be reported although it took effect. The environment only keeps to two
rules: a conditional write is accepted only at its expected revision, and a write is
acknowledged only if that very write took effect. A read may even report a record missing
that is there; the handler it happens to is marked as misled. A size rejection is
reported only for values above the bucket's limit.

Assumptions of the group index model: index values decode, keys are never deleted, and
the email id of a send is new. Of the record model: the send's blind Put takes effect at
most once, and records are not deleted.

The record's size is a sum of widths, proved to be the number of UTF-8 bytes of the
record's JSON text (`encoding/json` with HTML escaping, `omitempty`, RFC 3339 times with
a fraction of up to nine digits); different records have different texts.
Counters are int64 and wrap as in Go, so results about counts speak of fewer than 2^63
deliveries or revisions; `Counting.CountExactBelowLimit` shows the exact limit.

## Where the code and its documentation differ

- `UpdateRecord` is documented (internal/infrastructure/kv/store.go:378-381) not to call
  its callback when the record does not exist. When the record is found by the first
  attempt and reported missing to the retry, the callback has run, nil is returned, and
  `Handle` publishes the event without an acknowledged write and lets its message be
  deleted. The model keeps this. `KvStore.PublishesUnacknowledged` and
  `KvStore.NilWithoutWrite` give the exact replies under which `Handle` publishes, or
  returns nil, without an acknowledged write; `RecordGuarantees.StaleAbsenceLosesEvent`
  and `FirstAbsenceLosesEvent` exhibit runs in which the event is lost. All other
  handlers of such a run keep every guarantee: the publication theorems hold in every
  run for publications with an acknowledged write, which are exactly those of handlers
  that were not misled (`RecordGuarantees.AckedUnlessMisled`).
- The mock says its scan matches the KV store (internal/service/mocks/tracking.go:133-134),
  but it does not re-validate index entries. `TrackingStoreMock.ScansAgree` gives the exact
  condition for agreement and `MalformedIdIsShownByMockOnly` an entry where they differ.
- A reply is documented never to exceed the payload limit
  (internal/service/get_email_status_handler.go:50-52); an empty page under a limit of one
  byte does. `GroupReaders.ReplyIsWholePage` states the exact condition.

## Model

| member | source | states |
|---|---|---|
| Wire.IntLenBound | internal/service/engagement_event_handler.go:300 | an int64 counter takes 1 to 20 bytes in JSON, so counters cannot break the byte budget |
| Wire.TimeLen | pkg/api/nats.go:156 | a stored UTC instant takes between 22 and 32 bytes with its quotes; JsonText.TimeJsonLen ties it to the text |
| Wire.ParseTimestamp | internal/service/engagement_event_handler.go:444-457 | the recorded time is the event's own unless it is missing, zero or in a year JSON cannot hold; then it is the processing time |
| Wire.QuotedLen | pkg/api/nats.go:170-197 | JSON quoting expands a string at most six times, so the send-time field limits bound the static part |
| Wire.IdentifiersAreKeys | internal/infrastructure/kv/store.go:86-92 | every UUID and every issued handle passes the key check |
| Wire.KeyShape | internal/infrastructure/kv/store.go:71-92 | a key is accepted if and only if it is at most 256 characters of dot-separated words |
| Wire.UuidShape | internal/infrastructure/kv/store.go:74-77 | a UUID is five groups of 8, 4, 4, 4 and 12 hexadecimal digits with dashes between them |
| Wire.LowerUuid | internal/service/engagement_event_handler.go:153-157 | lower-casing a UUID gives a UUID without upper-case letters that differs from it in case only, so events find the key the send used |
| JsonText.TimeJsonLen | pkg/api/nats.go:175 | the RFC 3339 text of a stored instant has exactly the length that is counted for it |
| JsonText.TimeReadsBack | pkg/api/nats.go:175 | the instant is read back from its text, to the nanosecond |
| JsonText.TimeOkIsYear | internal/service/engagement_event_handler.go:444-457 | the instants JSON can hold are exactly those in the Gregorian years 0 to 9999 |
| JsonText.YearLength | internal/service/engagement_event_handler.go:444-457 | the calendar behind the texts has 366 days in leap years and 365 in others |
| JsonText.ZeroTimeText | internal/service/engagement_event_handler.go:448-453 | the zero time that counts as missing is 0001-01-01T00:00:00Z |
| JsonText.IntReadsBack | pkg/api/nats.go:179 | a counter is read back from its decimal text |
| JsonText.StringReadsBack | pkg/api/nats.go:171-174 | an escaped and quoted string is read back, and so is whatever follows it |
| JsonText.QuotedBytes | pkg/api/nats.go:171-174 | a quoted string takes exactly the counted UTF-8 bytes |
| JsonText.IndexJsonLen | internal/infrastructure/kv/store.go:164 | an index of n ids (n at least 1) encodes to exactly 39n + 1 bytes |
| JsonText.IndexJsonUnique | internal/infrastructure/kv/store.go:144-164 | the stored text determines the index |
| RecordText.RecordJsonBytes | internal/service/engagement_event_handler.go:309-314 | the counted size of a record is the number of UTF-8 bytes of its JSON text |
| RecordText.RecordJsonUnique | internal/infrastructure/kv/store.go:398-408 | two encodable records with the same text are equal |
| RecordText.FreshText | internal/service/send_email_handler.go:200-208 | the text of the record a send writes, member by member |
| RecordText.ReachableTextsFit | charts/lfx-v2-email-service/templates/nats-kv-buckets.yaml:13 | the stored text of every reachable record takes at most 50,236 bytes, below the bucket's limit |
| GroupIndex.NextInv | internal/infrastructure/kv/store.go:137-198 | the invariant (values grow by one new id per entry, sent writes are based on an entry without their id and below the cap, finished calls told the truth) survives every step |
| GroupIndex.AckedIsAppended | internal/infrastructure/kv/store.go:172-177 | an acknowledged write ends its call in success |
| GroupIndex.StepsAreAtomicAppends | internal/service/mocks/tracking.go:90-101 | refinement: every step leaves all indexes alone or is exactly one atomic append of the reference store that the cap admits |
| GroupIndex.IndexOnlyExtends | internal/infrastructure/kv/store.go:129-198 | in every run a group's index is a prefix of each later one |
| GroupIndex.EachIdAtMostOnce | internal/infrastructure/kv/store.go:156-159 | beyond what a group held at the start, every index position differs from all earlier ones, retries and late writes included |
| GroupIndex.SuccessIsPermanent | internal/infrastructure/kv/store.go:175-190 | the id of a call that returned success is in every later index value |
| GroupIndex.GroupFullIsFinal | internal/infrastructure/kv/store.go:160-196 | after ErrGroupFull the group is full and the id is not and never will be in it, whatever writes of the call are in flight |
| GroupIndex.IndexStaysBounded | internal/infrastructure/kv/store.go:160-162 | no run makes an index longer than 10,000, except one that started longer and then never changes |
| GroupIndex.IndexHoldsUuids | internal/infrastructure/kv/store.go:129-136 | whatever is in flight, an index that holds only UUIDs at the start of a run does so ever after |
| GroupIndex.IndexValueFits | charts/lfx-v2-email-service/templates/nats-kv-buckets.yaml:25 | an index that started within the cap and with UUIDs only encodes in every later state to 39n + 1, at most 390,001 bytes, below 1 MiB |
| SendRun.NextSInv | internal/service/send_email_handler.go:125-212 | the send invariant (accepted handles exist, the group_id of a reply follows the append's outcome, a record write is on the network only for the handle the reply carries) survives every step |
| SendRun.ReturnedHandleIsLive | internal/service/send_email_handler.go:163-171 | a returned group_id names an index key in every later state; a newly issued one is returned only with its email in the index |
| SendRun.HandleFollowsOutcome | internal/service/send_email_handler.go:163-212 | once the append has ended, the handle is returned and the record write issued if and only if it succeeded, or failed for a group that existed before |
| SendRun.StoredRecordIsReachable | internal/service/send_email_handler.go:184-212 | every stored record's group_id is an index key in every later state and is the handle of the reply, sent or still to be sent |
| SendRun.FullGroupIsWithheld | internal/service/send_email_handler.go:190-192 | when the append finds the group full the handle is withheld, no record is ever issued or stored, and the email is never in the index |
| SendRun.OnePutPerEmail | internal/service/send_email_handler.go:208 | the blind record write of an email id is issued at most once |
| SendRun.ExistenceIsExact | internal/infrastructure/kv/store.go:204-220 | a found index is a known group below the cap and a full one from the cap on; a missing key is an unknown group |
| Compaction.CompactKeepsNewest | internal/service/engagement_event_handler.go:413-438 | compaction keeps a suffix of at most 500 opens and raises the count to the old length; it leaves the list alone within both bounds, else it ends empty or within 50,000 bytes, at most 49 entries short of the longest fitting suffix |
| Compaction.FewerFit | internal/service/engagement_event_handler.go:432-437 | dropping old entries never makes a record longer, so the trimming loop moves towards its bound |
| RecipientRecords.RecipientRecord.CompactOpenedAtList | internal/service/engagement_event_handler.go:420-438 | the in-place method, with its loop, terminates and yields the compacted value |
| RecipientRecords.RecipientRecord.ApplyEngagementEvent | internal/service/engagement_event_handler.go:281-411 | the in-place method yields the value, the applied flag and the time of the event step, for all five kinds |
| RecipientRecords.RecipientRecord.RecordOpen | internal/service/engagement_event_handler.go:293-315 | an open is counted and its entry kept exactly while the list is under 500 and the record within 50,000 bytes |
| RecipientRecords.RecipientRecord.RecordClick | internal/service/engagement_event_handler.go:316-372 | a click is ignored exactly if either list holds its id; otherwise it is counted and stored |
| RecipientRecords.RecipientRecord.StoreClick | internal/service/engagement_event_handler.go:356-371 | the history entry is rolled back first and the dedup id last when the record does not fit |
| Record.CompactFrame | internal/service/engagement_event_handler.go:420-438 | compaction changes nothing but the open list and its count |
| EventMeaning.AppliedExactly | internal/service/engagement_event_handler.go:284-404 | an event is applied if and only if the record does not show it: an open or click by its id, the others by their flag |
| EventMeaning.FlagTimes | internal/service/engagement_event_handler.go:373-404 | an applied delivery stores its time in delivered_at, an applied bounce or complaint in failed_at; no other event touches a flag or its time |
| EventMeaning.SingleFire | internal/service/engagement_event_handler.go:373-404 | on a budgeted record a single-fire event changes its flag and time and nothing else |
| EventMeaning.OpenMeaning | internal/service/engagement_event_handler.go:293-315 | an applied open changes the flag, count and last time; its entry is appended if and only if the list is below 500 and the record fits with it |
| EventMeaning.ClickMeaning | internal/service/engagement_event_handler.go:330-372 | an applied click keeps its dedup id if and only if there is room and the record fits with it, and its history entry if and only if the record fits with both |
| EventMeaning.FirstTimes | internal/service/engagement_event_handler.go:373-404 | after any events on a fresh record delivered_at is the time of the first delivery and failed_at that of the first bounce or complaint, absent exactly without one |
| Budget.HeaderBytes | internal/service/send_email_handler.go:217-231 | the fields send_email admits encode to at most 10,000 bytes |
| Budget.ApplyKeepsBudget | internal/service/engagement_event_handler.go:281-411 | the budget invariant survives every event |
| Budget.CompactIsCountOnly | internal/service/engagement_event_handler.go:420-431 | on a budgeted record compaction never trims |
| Budget.ReachableRecordsFit | internal/service/engagement_event_handler.go:23-50 | every record reachable from a fresh one by any events encodes within 50,236 bytes, below the compaction threshold and the 65,536-byte bucket limit, and is never trimmed |
| Budget.StoredIdsStay | internal/service/engagement_event_handler.go:284-329 | an OPEN or CLICK id once stored is stored after every further event, and its redelivery is not applied |
| Counting.MaxAtIsMaximum | internal/service/engagement_event_handler.go:301-303 | the last-seen time is attained by an event and bounds all of them |
| Counting.ApplyCovered | internal/service/engagement_event_handler.go:281-411 | while the counter covers the list, an event is either a no-op leaving the record as it is or its plain effect |
| Counting.CountsBracketed | internal/service/engagement_event_handler.go:293-372 | after any events each counter is the number of deliveries that changed the record, between the distinct ids and the deliveries of its kind; last-seen times are the maximum of the counted ones; stored ids were delivered |
| Counting.CountExactBelowLimit | internal/service/engagement_event_handler.go:300 | an applied open raises the count by one exactly if the count was below the largest int64 |
| Counting.ReplayChangesNothing | internal/service/engagement_event_handler.go:284-329 | the redelivery of a stored id leaves the whole record unchanged |
| Convergence.FlagsAndTimesConverge | internal/service/engagement_event_handler.go:292-411 | any two schedules of the same events, rolled-back appends or not, agree on every flag and last-seen time |
| Convergence.LosslessIsComplete | internal/service/engagement_event_handler.go:304-371 | when no append is rolled back, the counters are the numbers of distinct ids and the lists hold exactly those ids |
| Convergence.SchedulesConverge | internal/service/engagement_event_handler.go:284-372 | two rollback-free schedules of the same events end with the same flags, counters, last-seen times and stored ids |
| Convergence.RoomMeansLossless | internal/service/engagement_event_handler.go:309-314 | at most 500 deliveries whose entries fit beside the largest scalars are never rolled back |
| RecordRun.PutIsFirst | internal/service/send_email_handler.go:184-212 | the send's blind Put always finds the key empty, so it overwrites no committed update |
| RecordRun.NextInv | internal/infrastructure/kv/store.go:385-423 | the invariant (each revision is its predecessor transformed by one received event, sent writes are based on a revision, finished handlers told the truth) survives every step |
| RecordRun.ChainIsFold | internal/infrastructure/kv/store.go:390-422 | the newest revision is the fold of the committed events over the record the send wrote |
| RecordGuarantees.RevisionsAreSequential | internal/service/engagement_event_handler.go:184-203 | concurrent handlers refine a sequential run: revisions only append, revision k is the fold of the first k events, each event is that of a received message |
| RecordGuarantees.ApplyFlags | internal/service/engagement_event_handler.go:373-408 | flags are never cleared and a single-fire event applies exactly while its flag is clear |
| RecordGuarantees.CountsGrow | internal/service/engagement_event_handler.go:299-340 | committed counters never decrease and grow at every counted revision |
| RecordGuarantees.PublishedIsCommitted | internal/service/engagement_event_handler.go:218-220 | in every run, the payload published on an acknowledged write reports the handler's own committed revision, which changed the record: its kind, id, link, count and time |
| RecordGuarantees.AckedUnlessMisled | internal/infrastructure/kv/store.go:390-396 | a publication has an acknowledged write if and only if no read reported the existing record missing to that handler |
| RecordGuarantees.FlagsPublishedOnce | internal/service/engagement_event_handler.go:373-408 | in every run, among the payloads published for one email on acknowledged writes at most one is a delivery and at most one a failure, bounce and complaint together |
| RecordGuarantees.PublishedCountsDistinct | internal/service/engagement_event_handler.go:193-202 | in every run the open counts in the payloads published for one email on acknowledged writes are pairwise distinct, and so are the click counts |
| RecordGuarantees.ShownWasCommitted | internal/service/engagement_event_handler.go:284-329 | whatever flag or id a revision shows was applied at or before it |
| RecordGuarantees.NoEventIsLost | internal/infrastructure/sqs/poller.go:95-107 | in every run a deleted message had its event committed, or is one the handler drops unread, or had a handler that found no record: received before there was one, or misled |
| RecordGuarantees.NilMeansReflected | internal/service/engagement_event_handler.go:204-221 | a handler that read its event and returned nil has a committed revision showing the event, and had its write acknowledged exactly if it did not end by finding no record |
| RecordGuarantees.NoDeterministicDrop | internal/service/engagement_event_handler.go:204-210 | no handler of a record written by this service ends in a size or encoding error |
| RecordGuarantees.StaleAbsenceLosesEvent | internal/infrastructure/kv/store.go:391-395 | a run in which the retry is told the record is missing publishes an event no revision holds and deletes its message |
| RecordGuarantees.FirstAbsenceLosesEvent | internal/infrastructure/kv/store.go:391-395 | for any event, a run in which the first read misses the existing record deletes the message with nothing committed or published |
| KvStore.Store.AppendToGroup | internal/infrastructure/kv/store.go:129-198 | for any replies, makes exactly the requests of the append program and returns its outcome |
| KvStore.AppendOutcome | internal/infrastructure/kv/store.go:129-198 | success, a full group and failure of an append, each with the exact replies under which it is returned |
| KvStore.AppendRequests | internal/infrastructure/kv/store.go:137-182 | the requests an append makes for any replies: reads, and a Create of a missing or an Update of a found index at the revision read, with the id added at the end |
| KvStore.InvalidIsRefused | internal/infrastructure/kv/store.go:130-135 | a malformed key or id is refused without a request |
| KvStore.Store.GroupExists | internal/infrastructure/kv/store.go:204-220 | known exactly for an index below the cap, full exactly for one at it, unknown exactly for a missing key; a malformed key makes no request |
| KvStore.Store.WriteRecord | internal/infrastructure/kv/store.go:108-120 | one blind Put whose outcome is returned, and none but an error for an unencodable record or malformed key |
| KvStore.Store.UpdateRecord | internal/infrastructure/kv/store.go:385-423 | for any replies and callback, makes exactly the requests of the update program and returns its result and captured variables |
| KvStore.ClockedStep | internal/service/engagement_event_handler.go:444-447 | a callback that reads the clock anew at each attempt takes the step of the concurrent model |
| KvStore.EngagementEventHandler.Handle | internal/service/engagement_event_handler.go:129-272 | success and publication are those of the update program under the lower-case id; whatever is published reports a record this call asked to store and the event's own time; dropped payloads touch nothing |
| KvStore.UpdateOutcome | internal/infrastructure/kv/store.go:385-423 | for any callback, the requests, captured variables and each result of an update, with the exact replies under which it is returned; a second attempt follows exactly a refused first write |
| KvStore.HandleOutcome | internal/service/engagement_event_handler.go:184-217 | Handle writes the record read with the event applied, at the revision read, and returns an error if and only if a read failed or the second write was refused too |
| KvStore.PublishesExactly | internal/service/engagement_event_handler.go:184-220 | Handle publishes if and only if a write that changed the record was acknowledged, or was refused and the retry was told the record is missing |
| KvStore.PublishesItsWrite | internal/service/engagement_event_handler.go:184-272 | what Handle publishes is what one of its own writes asks to store |
| KvStore.PublishesUnacknowledged | internal/service/engagement_event_handler.go:184-220 | Handle publishes without an acknowledged write if and only if the first attempt changed the record, its write was refused, and the retry was told the record is missing |
| KvStore.NilWithoutWrite | internal/service/engagement_event_handler.go:204-221 | Handle returns nil without an acknowledged write if and only if its last attempt was told the record is missing, or could not encode it, or had its write rejected as too large |
| KvStore.SendEmailHandler.WriteTrackingRecords | internal/service/send_email_handler.go:184-212 | index append first; the record is written and the handle kept if and only if the append succeeded, or failed for a group that existed before |
| KvStore.SendEmailHandler.Screen | internal/service/send_email_handler.go:46-124 | the checks before any mail or store access, in order, each with its answer |
| KvStore.PassesExactly | internal/service/send_email_handler.go:46-124 | a request passes the checks if and only if every field of it is acceptable |
| KvStore.SendEmailHandler.HandleData | internal/service/send_email_handler.go:44-175 | every request's reply and store requests: a failed check or an unknown or full handle stops it with its own answer; otherwise the reply's handle and the record write follow the append's outcome; every written record is within the budget's bounds |
| Scan.FeedConcat | internal/infrastructure/kv/store.go:349-352 | handing records over in two parts is handing over the whole, cut at the first stop |
| Scan.FeedMeaning | internal/infrastructure/kv/store.go:349-352 | the callback is called on the records in order, up to and including the first call that stops it |
| Scan.ShownExactly | internal/infrastructure/kv/store.go:314-349 | a position hands over a record if and only if its id is a UUID, the read found the record, and it was sent under the group |
| Scan.WindowExactly | internal/infrastructure/kv/store.go:282-296 | a window is the index from the offset on, cut at the limit and at its end |
| Scan.GroupScanner.ReadChunk | internal/infrastructure/kv/store.go:311-326 | every valid slot of the chunk holds this chunk's read |
| Scan.GroupScanner.VisitChunk | internal/infrastructure/kv/store.go:333-353 | the callback sees the chunk's readable records of the group in index order and no stale slot |
| Scan.GroupScanner.ScanGroupRecords | internal/infrastructure/kv/store.go:258-376 | the chunked scan's callback sequence is that of reading the window one by one, cut after the first stop; a done context yields a prefix and an error, never success |
| TrackingStoreMock.TrackingStore.AppendToGroup | internal/service/mocks/tracking.go:90-101 | one atomic append, refused exactly when the group is full |
| TrackingStoreMock.TrackingStore.UpdateRecord | internal/service/mocks/tracking.go:183-203 | one atomic callback application, not stored when unencodable |
| TrackingStoreMock.TrackingStore.GroupExists | internal/service/mocks/tracking.go:103-114 | existence and fullness of the group |
| TrackingStoreMock.TrackingStore.WriteRecord | internal/service/mocks/tracking.go:80-88 | stores the record unless an error is injected |
| TrackingStoreMock.TrackingStore.ScanGroupRecords | internal/service/mocks/tracking.go:138-181 | the one-by-one scan hands over every readable record of the group in the window; a done context ends it with an error after a prefix of them |
| TrackingStoreMock.ScansAgree | internal/infrastructure/kv/store.go:314-319 | both scans show the same sequence exactly if no malformed id of the window resolves to a record of the group |
| TrackingStoreMock.UuidScansAgree | internal/service/mocks/tracking.go:133-137 | on a window of UUIDs both scans leave any callback in the same state |
| TrackingStoreMock.ScanBoth | internal/service/mocks/tracking.go:133-181 | the same request to both stores over an index of UUIDs: if both succeed, total and final callback state coincide |
| TrackingStoreMock.MalformedIdIsShownByMockOnly | internal/infrastructure/kv/store.go:314-319 | a malformed id with a record of the group is shown by the mock and not by the KV store |
| GroupReaders.BufferIsJoined | internal/service/get_email_status_handler.go:143-166 | after any records the buffer is the joined array so far, and the page is rejected exactly when a non-empty array with its bracket exceeds the limit |
| GroupReaders.ReplyIsWholePage | internal/service/get_email_status_handler.go:140-198 | the finished reply is exactly the complete array and within the limit, and is refused exactly if that array exceeds it, except for an empty page under a one-byte limit |
| GroupReaders.ArrayText | internal/service/get_email_status_handler.go:143-198 | the array's text has its brackets and one comma between neighbours |
| GroupReaders.UnstoppedEncodes | internal/service/get_email_status_handler.go:143-166 | the callback stops the scan exactly with a failure or an overflow; without either every record was encoded |
| GroupReaders.AggregateIsSum | internal/service/get_email_engagement_analytics_handler.go:63-75 | the analytics callback adds up the records' fields and never stops the scan |
| GroupReaders.TotalsCount | internal/service/get_email_engagement_analytics_handler.go:63-75 | the totals are the numbers of delivered, opened and failed records and the sum of their open counts |
| GroupReaders.PagesCoverIndex | pkg/api/nats.go:199-209 | paging visits consecutive index positions without gap or repetition, all positions below the total among them, while sends append between pages |
| GroupReaders.SingleLookup | internal/service/get_email_status_handler.go:102-133 | a single lookup reads under the lower-case id and finds exactly a record of this group; a missing record and another group's are "not found", a failed read is an error |
| GroupReaders.PageIsPointwise | internal/service/get_email_status_handler.go:102-133 | on a fixed store a page shows exactly what single lookups of its lower-case ids find |
| GroupReaders.PagesArePointwise | internal/service/get_email_status_handler.go:89-99 | all pages together are the single lookups over the whole index |
| GroupReaders.PagesAreOneWindow | internal/service/get_email_status_handler.go:89-99 | on a fixed store all pages together show what one window over the rest of the index shows |
| GroupReaders.PageTotalsAdd | internal/service/get_email_engagement_analytics_handler.go:62-75 | the totals of all records shown are the sums of the pages' totals |
| GroupReaders.AnalyticsIsSumOfPages | internal/service/get_email_engagement_analytics_handler.go:59-93 | analytics over an index within the cap equal the sum over the pages |
| GroupReaders.GroupReadHandlers.constructor | internal/service/get_email_status_handler.go:46-59 | the payload limit is the given one if positive, else the default |
| GroupReaders.GroupReadHandlers.HandleByGroupId | internal/service/get_email_status_handler.go:135-198 | under any deadline a page is the complete array within the limit and "response too large" is said only of an array that exceeds it; a done context is answered "timeout" exactly if its deadline expired; with a live one a page or "response too large" is answered |
| GroupReaders.GroupReadHandlers.HandleStatus | internal/service/get_email_status_handler.go:67-133 | validation order, single lookup, and under any deadline the complete page for the default or given limit |
| GroupReaders.GroupReadHandlers.HandleAnalytics | internal/service/get_email_engagement_analytics_handler.go:36-99 | under any deadline a summary is the total and the field-wise sums over the first 10,000 positions, never given after a done context |
| ReadSlots.NextInv | cmd/email-service/main.go:295-378 | slot accounting and one answer per finished request survive every step |
| ReadSlots.SlotsAccountedFor | cmd/email-service/main.go:297-314 | read goroutines plus slots held by the drain are the used slots, at most 8; a request is answered exactly once, when it is no longer running, before its slot is free |
| ReadSlots.DrainedMeansQuiet | cmd/email-service/main.go:336-378 | once the drain holds every slot no read runs or ever starts, and each later request gets exactly one reply, "service busy" |
| ReadSlots.StartedIffSlotFree | cmd/email-service/main.go:297-308 | a request is started if and only if fewer than 8 slots are used by reads and drain, and is told "service busy" otherwise |
| ReadSlots.QuietDrainCompletes | cmd/email-service/main.go:371-378 | with no read in flight the drain can take all its slots |
| ReadSlots.LastSlotNeedsQuiet | cmd/email-service/main.go:371-378 | the drain takes its last slot only when every handler has finished |
| Poller.Run | internal/infrastructure/sqs/poller.go:48-116 | handles every received message in order, requests deletion exactly of those whose handler succeeded, and aborts exactly at the first run of failures of the limit's length; a failed deletion changes nothing else |
| Poller.HandleBatch | internal/infrastructure/sqs/poller.go:95-114 | within a batch a deletion is requested exactly if the handler returned nil, and a message is gone exactly if its deletion took effect |
| Poller.DeletedIffSucceeded | internal/infrastructure/sqs/poller.go:20-23 | a message is gone if and only if some handling of it succeeded and that deletion took effect |
| Poller.RequestedIffSucceeded | internal/infrastructure/sqs/poller.go:20-23 | a deletion is requested for a message if and only if some handling of it succeeded |
| Poller.FailuresMeaning | internal/infrastructure/sqs/poller.go:63-93 | the counter compared with the configured maximum is the number of receive failures since the last successful receive |
| Redact.EqualFoldRune | internal/infrastructure/smtp/message.go:294-304 | the loop around the fold orbit answers true exactly for the members of the orbit |
| Redact.FoldSymmetric | internal/infrastructure/smtp/message.go:292-304 | folding is symmetric because every orbit is a cycle |
| Redact.FoldTransitive | internal/infrastructure/smtp/message.go:292-304 | folding is transitive |
| Redact.FoldEqualMatches | internal/infrastructure/smtp/message.go:220-226 | fold-equal addresses match at the same places, so dropping duplicates loses no match |
| Redact.EqualFold | internal/infrastructure/smtp/message.go:222 | two addresses are equal exactly if they agree rune by rune up to folding |
| Redact.Candidates | internal/infrastructure/smtp/message.go:213-233 | every address that could match has a kept, fold-equal one no later in the list; skipping long addresses and duplicates is safe |
| Redact.SortByRunes | internal/infrastructure/smtp/message.go:234-238 | the same candidates, longest in runes first and in list order among equals |
| Redact.FoldPrefixLen | internal/infrastructure/smtp/message.go:273-290 | the length of the address if it spells the message at this place, else 0 |
| Redact.MatchAddressAt | internal/infrastructure/smtp/message.go:262-271 | the first candidate that matches at this place |
| Redact.FirstIsBest | internal/infrastructure/smtp/message.go:203-207 | the first match among the sorted candidates is the longest, then earliest, match among all addresses |
| Redact.RedactionUnique | internal/infrastructure/smtp/message.go:196-207 | leftmost, longest, non-overlapping determines the replaced spans |
| Redact.SpansAreLongest | internal/infrastructure/smtp/message.go:196-207 | each replaced span is a longest match where it starts, after the end of the one before |
| Redact.EveryMatchIsCovered | internal/infrastructure/smtp/message.go:196-207 | wherever an address occurs, the start of that occurrence is replaced |
| Redact.RawParts | internal/infrastructure/smtp/message.go:243-260 | the copied segments are the message's own bytes, and adjacent ones join |
| Redact.RenderIsVerbatim | internal/infrastructure/smtp/message.go:243-260 | replacing every span by what it covers gives the message back: nothing outside the spans is lost, repeated or changed |
| Redact.RedactAddressesInError | internal/infrastructure/smtp/message.go:208-260 | the result is the message with exactly the specified spans replaced and everything else verbatim; it is returned unchanged exactly if no address matches anywhere |

## Left out

- GroupIndex.IndexValueFits: the branch that resets an undecodable index value (internal/infrastructure/kv/store.go:146-149) is not modelled; only this service's writes reach the bucket, and they decode.
- Budget.ReachableRecordsFit: speaks of records first written by this version of the service; older, larger records are covered by Compaction.CompactKeepsNewest.
- KvStore.SendEmailHandler.Screen: the mailbox and local-part limits and the three allowlists enter as functions of an address, because the parsing is net/mail's.
- RecordGuarantees.PublishedIsCommitted: the publications of a misled handler are not covered; KvStore.PublishesUnacknowledged says exactly when there is one, and StaleAbsenceLosesEvent that it can be of an event no revision holds.
- GroupReaders.AggregateIsSum: the sum of open counts is unbounded, while Go adds int64 values.
- RecordText.RecordJsonBytes: strings are sequences of characters; the replacement of invalid UTF-8 by json.Marshal is not modelled.
- Redact.SortByRunes: a stable insertion sort stands for the library's stable sort.
- Redact.MatchAddressAt: positions are rune positions of the decoded message; the decoding of bytes into runes is the library's.
- redactLink and extractEmailID: string clean-up around net/url; a link enters the record model as any string.
- NATS, JetStream and SQS clients, goroutine start-up, HTTP probes, signals, tracing, configuration, charts: plumbing around the modelled states.
- Log lines and the counters that only feed them (invalid, foreign and unreadable entries of a scan).
- NullTrackingStore and NoOpSender: no state.
- Randomness of email ids and handles: a new email id is an id no call has used; nothing is assumed of handles beyond their format.
- Wall-clock deadlines: a context is a flag that changes from live to done at an arbitrary check.
- The subscription drains before drainReads takes slots: they only reduce arrivals, and the model allows arrivals at any time.
