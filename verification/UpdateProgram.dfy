/** The program of one UpdateRecord call and of the engagement handler around it:
    read, apply the callback, write at the revision read, one retry. The callback
    also assigns variables captured from the handler, which survive the retry. */
module UpdateProgram {
  import opened Wire
  import opened Record
  import opened EventMeaning

  datatype GetReply = Found(rec: Rec, revision: nat) | Missing | GetFailed
  datatype UpdateReply = Acked | TooLarge | Refused
  datatype Result = Updated | NoRecord | RecordTooLarge | RecordUnencodable | UpdateFailed

  /** A callback on the record and its captured variables. */
  type Callback<!C> = (Rec, C) -> (Rec, C)

  datatype Pc<C> =
    | Getting(attempt: nat, cap: C)
    | Updating(attempt: nat, rec: Rec, last: nat, cap: C)
    | Returned(result: Result, cap: C)

  function AfterGet<C>(pc: Pc<C>, fn: Callback<C>, reply: GetReply): Pc<C>
    requires pc.Getting?
  {
    match reply
    case GetFailed => Returned(UpdateFailed, pc.cap)
    case Missing => Returned(NoRecord, pc.cap)
    case Found(rec, revision) =>
      var (updated, cap) := fn(rec, pc.cap);
      if Encodable(updated) then Updating(pc.attempt, updated, revision, cap) else Returned(RecordUnencodable, cap)
  }

  function AfterUpdate<C>(pc: Pc<C>, reply: UpdateReply): Pc<C>
    requires pc.Updating?
  {
    match reply
    case Acked => Returned(Updated, pc.cap)
    case TooLarge => Returned(RecordTooLarge, pc.cap)
    case Refused => if pc.attempt == 0 then Getting(1, pc.cap) else Returned(UpdateFailed, pc.cap)
  }

  // ---- the engagement handler ----

  /** A queue message as Handle reads it; kind None stands for everything it drops
      before touching the store (undecodable, no tracking id, unknown type). */
  datatype Message = Message(kind: Option<Kind>, id: string, stamp: Stamp, link: string)

  function Resolve(m: Message, now: int): Event
    requires m.kind.Some? && TimeOk(now)
  {
    Event(m.kind.value, m.id, ParseTimestamp(m.stamp, now), m.link)
  }

  /** eventApplied, capturedAt, capturedOpenCount and capturedClickCount. */
  datatype Captured = Captured(applied: bool, at: int, openCount: int64, clickCount: int64)
  const NOTHING := Captured(false, ZERO_TIME, 0, 0)

  function Capture(before: Captured, a: Applied, ev: Event): Captured {
    if !a.applied then before.(applied := false, at := ZERO_TIME)
    else Captured(true, ev.at,
                  if ev.kind == Open then a.rec.openCount else before.openCount,
                  if ev.kind == Click then a.rec.clickCount else before.clickCount)
  }

  /** Handle's callback for one resolved event. */
  function EventCallback(ev: Event): Callback<Captured> {
    (r: Rec, c: Captured) => var a := Apply(r, ev); (a.rec, Capture(c, a, ev))
  }

  /** Handle returns nil, so the poller deletes the message. */
  predicate HandledOk(result: Result) {
    result != UpdateFailed
  }

  /** Handle publishes: no error of any kind, and the last callback changed the record. */
  predicate Publishes(result: Result, cap: Captured) {
    (result == Updated || result == NoRecord) && cap.applied
  }

  /** The payload published for each kind of event; a failure is a bounce or a complaint. */
  datatype Publication =
    | Delivered(emailId: string, at: int)
    | Opened(emailId: string, openCount: int64, at: int)
    | LinkClicked(emailId: string, eventId: string, link: string, clickCount: int64, at: int)
    | SendFailed(emailId: string, bounced: bool, at: int)

  function PublicationOf(emailId: string, m: Message, cap: Captured): Publication
    requires m.kind.Some?
  {
    match m.kind.value
    case Delivery => Delivered(emailId, cap.at)
    case Open => Opened(emailId, cap.openCount, cap.at)
    case Click => LinkClicked(emailId, m.id, m.link, cap.clickCount, cap.at)
    case Bounce => SendFailed(emailId, true, cap.at)
    case Complaint => SendFailed(emailId, false, cap.at)
  }

  /** The publication tells of this message and of this record: its kind, id and link,
      the count or time the record holds, and the event's time. */
  ghost predicate Reports(p: Publication, emailId: string, m: Message, rec: Rec, at: int) {
    && p.emailId == emailId && p.at == at
    && match p
       case Delivered(_, _) => m.kind == Some(Delivery) && rec.delivered && rec.deliveredAt == Some(p.at)
       case Opened(_, n, _) => m.kind == Some(Open) && rec.wasOpened && n == rec.openCount
       case LinkClicked(_, id, link, n, _) =>
         m.kind == Some(Click) && rec.clicked && id == m.id && link == m.link && n == rec.clickCount
       case SendFailed(_, bounced, _) =>
         && (m.kind == Some(Bounce) || m.kind == Some(Complaint)) && (bounced <==> m.kind == Some(Bounce))
         && rec.failed && rec.failedAt == Some(p.at)
  }

  /** Capturing from an applied event yields a publication that reports the new record. */
  lemma CaptureReports(m: Message, now: int, before: Captured, r: Rec, emailId: string)
    requires m.kind.Some? && TimeOk(now) && Apply(r, Resolve(m, now)).applied
    ensures var ev := Resolve(m, now);
            Reports(PublicationOf(emailId, m, Capture(before, Apply(r, ev), ev)), emailId, m, Apply(r, ev).rec, ev.at)
  {
    hide Apply;
    AppliedShows(r, Resolve(m, now));
  }

  lemma AppliedShows(r: Rec, ev: Event)
    requires Apply(r, ev).applied
    ensures ev.kind == Open ==> Apply(r, ev).rec.wasOpened
    ensures ev.kind == Click ==> Apply(r, ev).rec.clicked
    ensures ev.kind == Delivery ==> Apply(r, ev).rec.delivered && Apply(r, ev).rec.deliveredAt == Some(ev.at)
    ensures ev.kind == Bounce || ev.kind == Complaint ==>
              Apply(r, ev).rec.failed && Apply(r, ev).rec.failedAt == Some(ev.at)
  {
    hide Compact, KeepOpen, KeepClick;
    FlagTimes(r, ev);
    KeepFrames(Compact(r), ev);
  }
}
