/** The record as the update callback sees it: a mutable struct whose fields are
    assigned one by one. Each method is proved to perform exactly the step that
    module Record defines on values. */
module RecipientRecords {
  import opened Wire
  import opened Record

  class RecipientRecord {
    const header: Header
    var delivered: bool
    var deliveredAt: Option<int>
    var wasOpened: bool
    var openCount: int64
    var openedAtList: Opens
    var lastOpenedAt: Option<int>
    var clicked: bool
    var clickCount: int64
    var clickEventIds: seq<string>
    var clickList: seq<ClickEvent>
    var lastClickedAt: Option<int>
    var failed: bool
    var failedAt: Option<int>

    function Value(): Rec
      reads this
    {
      Rec(header, delivered, deliveredAt,
          wasOpened, openCount, openedAtList, lastOpenedAt,
          clicked, clickCount, clickEventIds, clickList, lastClickedAt, failed, failedAt)
    }

    /** Decoding a stored value. */
    constructor (r: Rec)
      ensures Value() == r
    {
      header := r.header;
      delivered, deliveredAt, failed, failedAt := r.delivered, r.deliveredAt, r.failed, r.failedAt;
      wasOpened, openCount, openedAtList, lastOpenedAt := r.wasOpened, r.openCount, r.openedAtList, r.lastOpenedAt;
      clicked, clickCount, lastClickedAt := r.clicked, r.clickCount, r.lastClickedAt;
      clickEventIds, clickList := r.clickEventIds, r.clickList;
    }

    method CompactOpenedAtList()
      modifies this
      ensures Value() == Compact(old(Value()))
    {
      hide Size, Encodable, TrimToFit;
      if openCount < |openedAtList| {
        openCount := |openedAtList|;
      }
      ghost var raised := Value();
      if |openedAtList| == 0 { return; }
      if |openedAtList| > MAX_OPEN_EVENTS {
        openedAtList := openedAtList[|openedAtList| - MAX_OPEN_EVENTS..];
      } else if !Encodable(Value()) || Size(Value()) <= COMPACT_ABOVE_BYTES {
        return;
      }
      TrimOldest(raised);
    }

    /** The loop of compactOpenedAtList: fifty oldest entries at a time. */
    method TrimOldest(ghost raised: Rec)
      requires Value() == raised.(openedAtList := openedAtList)
      modifies this`openedAtList
      ensures openedAtList == TrimToFit(raised, old(openedAtList))
    {
      hide Size, Encodable;
      while |openedAtList| > 0
        invariant Value() == raised.(openedAtList := openedAtList)
        invariant TrimToFit(raised, openedAtList) == TrimToFit(raised, old(openedAtList))
        decreases |openedAtList|
      {
        if MarshalsWithin(Value(), MAX_KV_RECORD_BYTES) { return; }
        openedAtList := openedAtList[if |openedAtList| < MAX_OPEN_EVENTS / 10
                                     then |openedAtList| else MAX_OPEN_EVENTS / 10..];
      }
    }

    /** Applies one SES event; `now` is what time.Now() would answer. */
    method ApplyEngagementEvent(kind: Kind, snsMessageId: string, stamp: Stamp, link: string, now: int)
      returns (applied: bool, at: Option<int>)
      requires TimeOk(now)
      modifies this
      ensures var ev := Event(kind, snsMessageId, ParseTimestamp(stamp, now), link);
              Applied(Value(), applied) == Apply(old(Value()), ev) &&
              at == if applied then Some(ev.at) else None
    {
      if kind == Open {
        for i := 0 to |openedAtList|
          invariant forall j :: 0 <= j < i ==> openedAtList[j].id != snsMessageId
        {
          if openedAtList[i].id == snsMessageId { return false, None; }
        }
      }
      CompactOpenedAtList();
      hide KeepOpen, KeepClick, Compact;
      var t := ParseTimestamp(stamp, now);
      match kind {
        case Open =>
          RecordOpen(snsMessageId, t, link);
          return true, Some(t);
        case Click =>
          var counted := RecordClick(snsMessageId, t, link);
          return counted, if counted then Some(t) else None;
        case Delivery =>
          if delivered { return false, None; }
          delivered, deliveredAt := true, Some(t);
          return true, Some(t);
        case Bounce =>
          if failed { return false, None; }
          failed, failedAt := true, Some(t);
          return true, Some(t);
        case Complaint =>
          if failed { return false, None; }
          failed, failedAt := true, Some(t);
          return true, Some(t);
      }
    }

    /** The OPEN case: count, then keep the entry only while the record fits. */
    method RecordOpen(id: string, t: int, link: string)
      modifies this
      ensures Value() == Effect(old(Value()), Event(Open, id, t, link))
    {
      wasOpened, openCount := true, Inc(openCount);
      if lastOpenedAt.None? || t > lastOpenedAt.value {
        lastOpenedAt := Some(t);
      }
      if |openedAtList| < MAX_OPEN_EVENTS {
        ghost var before := openedAtList;
        openedAtList := openedAtList + [OpenEvent(id, t)];
        if !MarshalsWithin(Value(), MAX_KV_RECORD_BYTES) {
          openedAtList := openedAtList[..|openedAtList| - 1];
          assert openedAtList == before;
        }
      }
    }

    /** The CLICK case: dedup over both lists, then count and store. */
    method RecordClick(id: string, t: int, link: string) returns (counted: bool)
      modifies this
      ensures counted == !ClickStored(old(Value()), id)
      ensures Value() == if counted then Effect(old(Value()), Event(Click, id, t, link)) else old(Value())
    {
      hide KeepClick;
      for i := 0 to |clickEventIds|
        invariant forall j :: 0 <= j < i ==> clickEventIds[j] != id
      {
        if clickEventIds[i] == id { return false; }
      }
      for i := 0 to |clickList|
        invariant forall j :: 0 <= j < i ==> clickList[j].id != id
      {
        if clickList[i].id == id { return false; }
      }
      clicked, clickCount := true, Inc(clickCount);
      if lastClickedAt.None? || t > lastClickedAt.value {
        lastClickedAt := Some(t);
      }
      StoreClick(id, t, link);
      return true;
    }

    /** Appends the dedup id and the history entry; when the record does not fit the
        history entry is rolled back first and the dedup id last. */
    method StoreClick(id: string, t: int, link: string)
      modifies this`clickEventIds, this`clickList
      ensures Value() == KeepClick(old(Value()), Event(Click, id, t, link))
    {
      hide MarshalsWithin;
      ghost var ids, clicks := clickEventIds, clickList;
      var idAdded := |clickEventIds| < MAX_CLICK_EVENT_IDS;
      if idAdded {
        clickEventIds := clickEventIds + [id];
      }
      clickList := clickList + [ClickEvent(id, link, t)];
      if !MarshalsWithin(Value(), MAX_KV_RECORD_BYTES) {
        clickList := clickList[..|clickList| - 1];
        assert clickList == clicks;
        if idAdded && !MarshalsWithin(Value(), MAX_KV_RECORD_BYTES) {
          clickEventIds := clickEventIds[..|clickEventIds| - 1];
          assert clickEventIds == ids;
        }
      }
    }
  }
}
