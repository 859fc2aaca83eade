/** The recipient record, its encoded size, and how one engagement event changes
    it. `Apply` is the meaning of applyEngagementEvent on record values; the class
    `RecipientRecord` performs it in place, field by field and loop by loop. */
module Record {
  import opened Wire

  datatype OpenEvent = OpenEvent(id: string, at: int)
  datatype ClickEvent = ClickEvent(id: string, link: string, at: int)

  /** A Go slice is never longer than the largest int. */
  type Opens = l: seq<OpenEvent> | |l| <= INT64_MAX witness []

  /** The fields a send writes and no event changes. */
  datatype Header = Header(groupId: string, emailId: string, to: string, subject: string, sentAt: int)

  datatype Rec = Rec(
    header: Header,
    delivered: bool, deliveredAt: Option<int>,
    wasOpened: bool, openCount: int64, openedAtList: Opens, lastOpenedAt: Option<int>,
    clicked: bool, clickCount: int64, clickEventIds: seq<string>, clickList: seq<ClickEvent>,
    lastClickedAt: Option<int>,
    failed: bool, failedAt: Option<int>)

  /** The record a send writes. */
  function NewRec(header: Header): Rec {
    Rec(header, false, None, false, 0, [], None,
        false, 0, [], [], None, false, None)
  }

  // ---- limits ----

  const MAX_KV_RECORD_BYTES := 50_000
  const COMPACT_ABOVE_BYTES := 55_000
  const MAX_OPEN_EVENTS := 500
  const MAX_CLICK_EVENT_IDS := 500
  /** maxValueSize of the email-recipients bucket. */
  const MAX_RECORD_VALUE := 65_536

  // ---- encoded size ----

  /** `,"delivered_at":` and its siblings, present only when the time is set. */
  function OptTimeLen(key: nat, t: Option<int>): nat {
    match t case None => 0 case Some(v) => key + TimeLen(v)
  }

  function BoolLen(b: bool): nat { if b then 4 else 5 }

  /** Braces, the keys that are always present, and the fields no event changes. */
  function StaticBytes(h: Header): nat {
    126 + QuotedLen(h.groupId) + QuotedLen(h.emailId) + QuotedLen(h.to) + QuotedLen(h.subject) + TimeLen(h.sentAt)
  }

  function ScalarBytes(r: Rec): nat {
    BoolLen(r.delivered) + BoolLen(r.wasOpened) + BoolLen(r.clicked) + BoolLen(r.failed)
    + IntLen(r.openCount) + IntLen(r.clickCount)
    + OptTimeLen(16, r.deliveredAt) + OptTimeLen(18, r.lastOpenedAt)
    + OptTimeLen(19, r.lastClickedAt) + OptTimeLen(13, r.failedAt)
  }

  /** Bytes of the open entries, one separator each. */
  function OpenBytes(l: seq<OpenEvent>): nat {
    if l == [] then 0
    else OpenBytes(l[..|l| - 1]) + 27 + QuotedLen(l[|l| - 1].id) + TimeLen(l[|l| - 1].at)
  }

  function IdBytes(l: seq<string>): nat {
    if l == [] then 0 else IdBytes(l[..|l| - 1]) + 1 + QuotedLen(l[|l| - 1])
  }

  function ClickBytes(l: seq<ClickEvent>): nat {
    if l == [] then 0
    else ClickBytes(l[..|l| - 1]) + 36 + QuotedLen(l[|l| - 1].id) + QuotedLen(l[|l| - 1].link) + TimeLen(l[|l| - 1].at)
  }

  /** The three list fields; an empty list is left out together with its key. */
  function ListBytes(r: Rec): nat {
    (if r.openedAtList == [] then 0 else 19 + OpenBytes(r.openedAtList))
    + (if r.clickEventIds == [] then 0 else 20 + IdBytes(r.clickEventIds))
    + (if r.clickList == [] then 0 else 15 + ClickBytes(r.clickList))
  }

  /** Bytes of the record as JSON. */
  function Size(r: Rec): nat {
    StaticBytes(r.header) + ScalarBytes(r) + ListBytes(r)
  }

  predicate OptTimeOk(t: Option<int>) { t.Some? ==> TimeOk(t.value) }

  /** json.Marshal succeeds: every time is in a year JSON can hold. */
  predicate Encodable(r: Rec) {
    && TimeOk(r.header.sentAt)
    && OptTimeOk(r.deliveredAt) && OptTimeOk(r.lastOpenedAt)
    && OptTimeOk(r.lastClickedAt) && OptTimeOk(r.failedAt)
    && (forall e :: e in r.openedAtList ==> TimeOk(e.at))
    && (forall e :: e in r.clickList ==> TimeOk(e.at))
  }

  /** json.Marshal returns no error and at most `limit` bytes. */
  predicate MarshalsWithin(r: Rec, limit: nat) {
    Encodable(r) && Size(r) <= limit
  }

  // ---- compaction ----

  function Newest<T>(l: seq<T>, n: nat): (s: seq<T>)
    requires n <= |l|
    ensures |s| == n
  {
    l[|l| - n..]
  }

  function TrimStep(l: seq<OpenEvent>): (s: seq<OpenEvent>)
    ensures l != [] ==> |s| < |l|
  {
    l[if |l| < MAX_OPEN_EVENTS / 10 then |l| else MAX_OPEN_EVENTS / 10..]
  }

  predicate FitsWith(r: Rec, l: Opens) {
    MarshalsWithin(r.(openedAtList := l), MAX_KV_RECORD_BYTES)
  }

  /** Drops fifty oldest entries at a time until the record fits or none is left. */
  function TrimToFit(r: Rec, l: Opens): Opens
    decreases |l|
  {
    if l == [] || FitsWith(r, l) then l else TrimToFit(r, TrimStep(l))
  }

  function RaiseCount(r: Rec): Rec
  {
    if r.openCount < |r.openedAtList| then r.(openCount := |r.openedAtList|) else r
  }

  function Compact(r: Rec): Rec
  {
    var c := RaiseCount(r);
    if c.openedAtList == [] then c
    else if |c.openedAtList| > MAX_OPEN_EVENTS then
      c.(openedAtList := TrimToFit(c, Newest(c.openedAtList, MAX_OPEN_EVENTS)))
    else if !Encodable(c) || Size(c) <= COMPACT_ABOVE_BYTES then c
    else c.(openedAtList := TrimToFit(c, c.openedAtList))
  }

  // ---- events ----

  datatype Kind = Open | Click | Delivery | Bounce | Complaint

  /** An engagement event with its timestamp resolved; id is the SNS MessageId. */
  datatype Event = Event(kind: Kind, id: string, at: int, link: string)

  predicate OpenStored(r: Rec, id: string) {
    exists i :: 0 <= i < |r.openedAtList| && r.openedAtList[i].id == id
  }

  predicate ClickStored(r: Rec, id: string) {
    id in r.clickEventIds || exists i :: 0 <= i < |r.clickList| && r.clickList[i].id == id
  }

  function Later(cur: Option<int>, t: int): Option<int> {
    if cur.None? || t > cur.value then Some(t) else cur
  }

  function CountOpen(r: Rec, at: int): Rec {
    r.(wasOpened := true, openCount := Inc(r.openCount), lastOpenedAt := Later(r.lastOpenedAt, at))
  }

  function CountClick(r: Rec, at: int): Rec {
    r.(clicked := true, clickCount := Inc(r.clickCount), lastClickedAt := Later(r.lastClickedAt, at))
  }

  function KeepOpen(r: Rec, ev: Event): Rec {
    if |r.openedAtList| >= MAX_OPEN_EVENTS then r
    else
      var grown := r.(openedAtList := r.openedAtList + [OpenEvent(ev.id, ev.at)]);
      if MarshalsWithin(grown, MAX_KV_RECORD_BYTES) then grown else r
  }

  function KeepClick(r: Rec, ev: Event): Rec {
    var withId := if |r.clickEventIds| < MAX_CLICK_EVENT_IDS
                  then r.(clickEventIds := r.clickEventIds + [ev.id]) else r;
    var grown := withId.(clickList := withId.clickList + [ClickEvent(ev.id, ev.link, ev.at)]);
    if MarshalsWithin(grown, MAX_KV_RECORD_BYTES) then grown
    else if MarshalsWithin(withId, MAX_KV_RECORD_BYTES) then withId
    else r
  }

  datatype Applied = Applied(rec: Rec, applied: bool)

  /** The event changes nothing but a possible compaction. */
  predicate NoOp(r: Rec, ev: Event) {
    match ev.kind
    case Open => OpenStored(r, ev.id)
    case Click => ClickStored(r, ev.id)
    case Delivery => r.delivered
    case Bounce => r.failed
    case Complaint => r.failed
  }

  function Effect(r: Rec, ev: Event): Rec {
    match ev.kind
    case Open => KeepOpen(CountOpen(r, ev.at), ev)
    case Click => KeepClick(CountClick(r, ev.at), ev)
    case Delivery => r.(delivered := true, deliveredAt := Some(ev.at))
    case Bounce => r.(failed := true, failedAt := Some(ev.at))
    case Complaint => r.(failed := true, failedAt := Some(ev.at))
  }

  /** applyEngagementEvent: the open dedup check precedes compaction, the others follow it. */
  function Apply(r: Rec, ev: Event): Applied
  {
    if ev.kind == Open && OpenStored(r, ev.id) then Applied(r, false)
    else
      var c := Compact(r);
      if ev.kind != Open && NoOp(c, ev) then Applied(c, false) else Applied(Effect(c, ev), true)
  }

  /** Compaction touches only the open list and its count. */
  lemma CompactFrame(r: Rec)
    ensures Compact(r) == r.(openCount := Compact(r).openCount, openedAtList := Compact(r).openedAtList)
  {
    hide Encodable, Size, TrimToFit, Newest;
  }
}
