/** Delivery order and redelivery do not matter: what a record ends with is
    determined by the set of events. */
module Convergence {
  import opened Wire
  import opened Record
  import opened Budget
  import opened Counting

  /** Redeliveries of one id carry the time of the first. */
  ghost predicate OneTimePerId(evs: seq<Event>) {
    forall a, b :: a in evs && b in evs && a.kind == b.kind && a.id == b.id ==> a.at == b.at
  }

  ghost predicate SameEvents(a: seq<Event>, b: seq<Event>) {
    forall e :: e in a <==> e in b
  }

  /** After the event its id is held by every list of its kind. */
  predicate Retained(r: Rec, ev: Event) {
    match ev.kind
    case Open => OpenStored(r, ev.id)
    case Click => ev.id in r.clickEventIds && exists i :: 0 <= i < |r.clickList| && r.clickList[i].id == ev.id
    case _ => true
  }

  /** No append was rolled back during the run. */
  ghost predicate Lossless(r: Rec, evs: seq<Event>) {
    forall k :: 0 <= k < |evs| ==> Retained(Fold(r, evs[..k + 1]), evs[k])
  }

  // ---- last-seen times ----

  /** t is the latest time among the events of one kind, or None without any. */
  ghost predicate IsLatest(t: Option<int>, evs: seq<Event>, k: Kind) {
    && (t.None? <==> Ids(evs, k) == {})
    && (t.Some? ==> exists e :: e in evs && e.kind == k && e.at == t.value)
    && (t.Some? ==> forall e :: e in evs && e.kind == k ==> e.at <= t.value)
  }

  lemma {:induction false} CountedAreDelivered(r: Rec, evs: seq<Event>, k: Kind)
    ensures forall e :: e in Counted(r, evs, k) ==> e in evs && e.kind == k
  {
    if evs != [] {
      var init, ev := evs[..|evs| - 1], evs[|evs| - 1];
      assert evs == init + [ev];
      CountedAreDelivered(r, init, k);
      CountedSnoc(r, init, ev, k);
    }
  }

  lemma LatestOfCounted(r: Rec, evs: seq<Event>, k: Kind)
    requires OneTimePerId(evs)
    requires Ids(Counted(r, evs, k), k) == Ids(evs, k)
    ensures IsLatest(MaxAt(Counted(r, evs, k)), evs, k)
  {
    hide MaxAt, Counted, OneTimePerId;
    var c := Counted(r, evs, k);
    CountedAreDelivered(r, evs, k);
    MaxAtIsMaximum(c);
    if c != [] {
      assert c[0] in c && c[0] in evs;
      assert c[0].id in Ids(evs, k);
    }
    forall e | e in evs && e.kind == k ensures MaxAt(c).Some? && e.at <= MaxAt(c).value {
      assert e.id in Ids(evs, k);
      var d :| d in c && d.kind == k && d.id == e.id;
      SameTime(evs, d, e);
    }
  }

  lemma SameTime(evs: seq<Event>, a: Event, b: Event)
    requires OneTimePerId(evs) && a in evs && b in evs && a.kind == b.kind && a.id == b.id
    ensures a.at == b.at
  {
  }

  lemma LatestIsUnique(t: Option<int>, u: Option<int>, a: seq<Event>, b: seq<Event>, k: Kind)
    requires SameEvents(a, b) && IsLatest(t, a, k) && IsLatest(u, b, k)
    ensures t == u
  {
    SameIds(a, b, k);
  }

  lemma SameIds(a: seq<Event>, b: seq<Event>, k: Kind)
    requires SameEvents(a, b)
    ensures Ids(a, k) == Ids(b, k)
  {
  }

  // ---- ids and counts of a lossless run ----

  ghost predicate ListsComplete(r: Rec, evs: seq<Event>) {
    && OpenIdsOf(r) == Ids(evs, Open) && r.openCount == |Ids(evs, Open)|
    && DedupIdsOf(r) == HistoryIdsOf(r) == Ids(evs, Click)
    && r.clickCount == |Ids(evs, Click)|
  }

  lemma {:induction false} LosslessIsComplete(h: Header, evs: seq<Event>)
    requires HeaderOk(h) && EventsOk(evs) && |evs| <= INT64_MAX && Lossless(NewRec(h), evs)
    ensures ListsComplete(Fold(NewRec(h), evs), evs)
  {
    var r := NewRec(h);
    if evs == [] {
      FreshIsComplete(h);
    } else {
      hide Fold, ListsComplete, Lossless, Retained, Ids, Tally, Counted, Covered, Apply;
      var init, ev := evs[..|evs| - 1], evs[|evs| - 1];
      assert evs == init + [ev] && evs[..|evs|] == evs;
      LosslessPrefix(r, init, ev);
      LosslessIsComplete(h, init);
      FoldTally(h, init);
      FoldSnoc(r, init, ev);
      assert Tally(Fold(r, init), init, Counted(r, init, Open), Counted(r, init, Click));
      assert Covered(Fold(r, init)) && Fold(r, init).openCount < INT64_MAX && Fold(r, init).clickCount < INT64_MAX by {
        TallyRoom(Fold(r, init), init, Counted(r, init, Open), Counted(r, init, Click));
      }
      CompleteStep(Fold(r, init), init, ev);
    }
  }

  lemma FreshIsComplete(h: Header)
    ensures ListsComplete(NewRec(h), [])
  {
    forall k: Kind ensures Ids([], k) == {} {}
  }

  lemma LosslessPrefix(r: Rec, evs: seq<Event>, ev: Event)
    requires Lossless(r, evs + [ev])
    ensures Lossless(r, evs) && Retained(Fold(r, evs + [ev]), ev)
  {
    hide Fold, Retained;
    var s := evs + [ev];
    assert s[..|evs| + 1] == s && s[|evs|] == ev;
    forall k | 0 <= k < |evs| ensures Retained(Fold(r, evs[..k + 1]), evs[k]) {
      assert s[..k + 1] == evs[..k + 1] && s[k] == evs[k];
    }
  }

  lemma CompleteStep(r: Rec, evs: seq<Event>, ev: Event)
    requires Covered(r) && ListsComplete(r, evs) && r.openCount < INT64_MAX && r.clickCount < INT64_MAX
    requires Retained(Apply(r, ev).rec, ev)
    ensures ListsComplete(Apply(r, ev).rec, evs + [ev])
  {
    hide Covered, Effect, Apply, NoOp, Ids;
    ApplyCovered(r, ev);
    EffectFrame(r, ev);
    IdsSnoc(evs, ev, Open);
    IdsSnoc(evs, ev, Click);
    if !NoOp(r, ev) {
      match ev.kind {
        case Open => CompleteOpen(r, evs, ev);
        case Click => CompleteClick(r, evs, ev);
        case _ =>
      }
    } else {
      NoOpAddsNoId(r, evs, ev);
      forall k: Kind | k == Open || k == Click ensures Ids(evs + [ev], k) == Ids(evs, k) {}
    }
  }

  lemma NoOpAddsNoId(r: Rec, evs: seq<Event>, ev: Event)
    requires NoOp(r, ev) && ListsComplete(r, evs)
    ensures Ids(evs + [ev], Open) == Ids(evs, Open) && Ids(evs + [ev], Click) == Ids(evs, Click)
  {
    hide NoOp, Ids, OpenIdsOf, DedupIdsOf, HistoryIdsOf;
    NoOpIsHeld(r, ev);
    IdsSnoc(evs, ev, Open);
    IdsSnoc(evs, ev, Click);
  }

  lemma NoOpIsHeld(r: Rec, ev: Event)
    requires NoOp(r, ev)
    ensures ev.kind == Open ==> ev.id in OpenIdsOf(r)
    ensures ev.kind == Click ==> ev.id in ClickIdsOf(r)
  {
    StoredIsHeld(r, ev.id);
  }

  lemma CompleteOpen(r: Rec, evs: seq<Event>, ev: Event)
    requires ev.kind == Open && !NoOp(r, ev) && r.openCount < INT64_MAX
    requires OpenIdsOf(r) == Ids(evs, Open) && r.openCount == |Ids(evs, Open)|
    requires Retained(Effect(r, ev), ev)
    ensures OpenIdsOf(Effect(r, ev)) == Ids(evs + [ev], Open)
    ensures Effect(r, ev).openCount == |Ids(evs + [ev], Open)|
  {
    hide Effect, Ids, OpenIdsOf;
    IdsSnoc(evs, ev, Open);
    StoredIsHeld(r, ev.id);
    OpenEffect(r, ev);
    var s := Effect(r, ev);
    StoredIsHeld(s, ev.id);
    if s.openedAtList == r.openedAtList { SameOpenIds(r, s); } else { HeldAfterOpen(r, s, OpenEvent(ev.id, ev.at)); }
  }

  lemma CompleteClick(r: Rec, evs: seq<Event>, ev: Event)
    requires ev.kind == Click && !NoOp(r, ev) && r.clickCount < INT64_MAX
    requires DedupIdsOf(r) == HistoryIdsOf(r) == Ids(evs, Click)
    requires r.clickCount == |Ids(evs, Click)|
    requires Retained(Effect(r, ev), ev)
    ensures var s := Effect(r, ev);
            && DedupIdsOf(s) == HistoryIdsOf(s) == Ids(evs + [ev], Click)
            && s.clickCount == |Ids(evs + [ev], Click)|
  {
    hide Effect, Ids;
    IdsSnoc(evs, ev, Click);
    StoredIsHeld(r, ev.id);
    ClickEffect(r, ev);
    var s, c := Effect(r, ev), ClickEvent(ev.id, ev.link, ev.at);
    assert ev.id !in Ids(evs, Click);
    assert s.clickEventIds == r.clickEventIds + [ev.id];
    assert s.clickList == r.clickList + [c];
    ClickSetsSnoc(r, s, c);
  }

  lemma ClickSetsSnoc(r: Rec, s: Rec, c: ClickEvent)
    requires s.clickEventIds == r.clickEventIds + [c.id] && s.clickList == r.clickList + [c]
    ensures DedupIdsOf(s) == DedupIdsOf(r) + {c.id} && HistoryIdsOf(s) == HistoryIdsOf(r) + {c.id}
  {
    assert forall x :: x in s.clickList <==> x in r.clickList || x == c;
    forall id | id in HistoryIdsOf(r) ensures id in HistoryIdsOf(s) {
      var e :| e in r.clickList && e.id == id;
      assert e in s.clickList;
    }
    assert c in s.clickList;
  }

  // ---- convergence ----

  /** Any two schedules of the same events agree on every flag and on the
      last-seen times, rolled-back appends or not. */
  lemma FlagsAndTimesConverge(h: Header, a: seq<Event>, b: seq<Event>)
    requires HeaderOk(h) && EventsOk(a) && EventsOk(b) && |a| <= INT64_MAX && |b| <= INT64_MAX
    requires SameEvents(a, b) && OneTimePerId(a)
    ensures var r, s := Fold(NewRec(h), a), Fold(NewRec(h), b);
            && r.delivered == s.delivered && r.failed == s.failed
            && r.wasOpened == s.wasOpened && r.clicked == s.clicked
            && r.lastOpenedAt == s.lastOpenedAt && r.lastClickedAt == s.lastClickedAt
  {
    hide Fold, Budgeted, OneTimePerId, Counted, Ids, MaxAt,
         Deliveries, OpenIdsOf, ClickIdsOf, IsLatest, Counting.Covered;
    OneTimeShared(a, b);
    forall k: Kind ensures Ids(a, k) == Ids(b, k) { SameIds(a, b, k); }
    TimesOfRun(h, a);
    TimesOfRun(h, b);
    var r, s := Fold(NewRec(h), a), Fold(NewRec(h), b);
    LatestIsUnique(r.lastOpenedAt, s.lastOpenedAt, a, b, Open);
    LatestIsUnique(r.lastClickedAt, s.lastClickedAt, a, b, Click);
  }

  lemma OneTimeShared(a: seq<Event>, b: seq<Event>)
    requires SameEvents(a, b) && OneTimePerId(a)
    ensures OneTimePerId(b)
  {
  }

  lemma TimesOfRun(h: Header, evs: seq<Event>)
    requires HeaderOk(h) && EventsOk(evs) && |evs| <= INT64_MAX && OneTimePerId(evs)
    ensures var r := Fold(NewRec(h), evs);
            && IsLatest(r.lastOpenedAt, evs, Open) && IsLatest(r.lastClickedAt, evs, Click)
            && (r.wasOpened <==> Ids(evs, Open) != {}) && (r.clicked <==> Ids(evs, Click) != {})
            && (r.delivered <==> Ids(evs, Delivery) != {})
            && (r.failed <==> Ids(evs, Bounce) + Ids(evs, Complaint) != {})
  {
    hide Fold, Budgeted, Counted, MaxAt, Deliveries, OpenIdsOf, ClickIdsOf, IsLatest, OneTimePerId;
    var r := NewRec(h);
    FoldTally(h, evs);
    LatestOfCounted(r, evs, Open);
    LatestOfCounted(r, evs, Click);
    CountedNonempty(r, evs, Open);
    CountedNonempty(r, evs, Click);
  }

  lemma CountedNonempty(r: Rec, evs: seq<Event>, k: Kind)
    requires Ids(Counted(r, evs, k), k) == Ids(evs, k)
    ensures Counted(r, evs, k) == [] <==> Ids(evs, k) == {}
  {
    hide Counted;
    var c := Counted(r, evs, k);
    CountedAreDelivered(r, evs, k);
    if c != [] { assert c[0] in c; assert c[0].id in Ids(c, k); }
  }

  /** When no append is rolled back the counters are the numbers of distinct ids,
      the lists hold exactly those ids, and all of it is schedule-independent. */
  lemma SchedulesConverge(h: Header, a: seq<Event>, b: seq<Event>)
    requires HeaderOk(h) && EventsOk(a) && EventsOk(b) && |a| <= INT64_MAX && |b| <= INT64_MAX
    requires SameEvents(a, b) && OneTimePerId(a)
    requires Lossless(NewRec(h), a) && Lossless(NewRec(h), b)
    ensures var r, s := Fold(NewRec(h), a), Fold(NewRec(h), b);
            && r.openCount == s.openCount == |Ids(a, Open)| && r.clickCount == s.clickCount == |Ids(a, Click)|
            && OpenIdsOf(r) == OpenIdsOf(s) == Ids(a, Open)
            && DedupIdsOf(r) == DedupIdsOf(s) == HistoryIdsOf(r) == HistoryIdsOf(s) == Ids(a, Click)
            && r.delivered == s.delivered && r.failed == s.failed
            && r.wasOpened == s.wasOpened && r.clicked == s.clicked
            && r.lastOpenedAt == s.lastOpenedAt && r.lastClickedAt == s.lastClickedAt
  {
    hide Fold, Ids, Lossless;
    FlagsAndTimesConverge(h, a, b);
    LosslessIsComplete(h, a);
    LosslessIsComplete(h, b);
    SameIds(a, b, Open);
    SameIds(a, b, Click);
  }

  // ---- a condition checkable before the run ----

  /** Bytes the event can add to the lists. */
  function EntryBytes(ev: Event): nat {
    match ev.kind
    case Open => 27 + QuotedLen(ev.id) + TimeLen(ev.at)
    case Click => 37 + 2 * QuotedLen(ev.id) + QuotedLen(ev.link) + TimeLen(ev.at)
    case _ => 0
  }

  function AllBytes(evs: seq<Event>): nat {
    if evs == [] then 0 else AllBytes(evs[..|evs| - 1]) + EntryBytes(evs[|evs| - 1])
  }

  /** At most 500 deliveries whose entries all fit beside the largest scalars. */
  predicate RoomForAll(h: Header, evs: seq<Event>) {
    |evs| <= 500 && StaticBytes(h) + SCALAR_MAX + 54 + AllBytes(evs) <= MAX_KV_RECORD_BYTES
  }

  ghost predicate Roomy(r: Rec, used: nat, n: nat) {
    && StaticBytes(r.header) + SCALAR_MAX + 54 + used <= MAX_KV_RECORD_BYTES
    && OpenBytes(r.openedAtList) + IdBytes(r.clickEventIds) + ClickBytes(r.clickList) <= used
    && |r.openedAtList| <= n && |r.clickEventIds| <= n
  }

  lemma RoomyFits(r: Rec, used: nat, n: nat)
    requires Roomy(r, used, n) && Encodable(r)
    ensures MarshalsWithin(r, MAX_KV_RECORD_BYTES)
  {
    ScalarRange(r);
  }

  /** What the record would hold if every append were kept. */
  ghost function Grown(r: Rec, ev: Event): Rec
    requires |r.openedAtList| < INT64_MAX
  {
    match ev.kind
    case Open => CountOpen(r, ev.at).(openedAtList := r.openedAtList + [OpenEvent(ev.id, ev.at)])
    case Click => CountClick(r, ev.at).(clickEventIds := r.clickEventIds + [ev.id],
                                        clickList := r.clickList + [ClickEvent(ev.id, ev.link, ev.at)])
    case _ => Effect(r, ev)
  }

  lemma GrownRoomy(r: Rec, used: nat, n: nat, ev: Event)
    requires |r.openedAtList| < INT64_MAX
    requires Roomy(r, used, n) && StaticBytes(r.header) + SCALAR_MAX + 54 + used + EntryBytes(ev) <= MAX_KV_RECORD_BYTES
    ensures Roomy(Grown(r, ev), used + EntryBytes(ev), n + 1)
  {
    hide StaticBytes, QuotedLen, TimeLen;
    match ev.kind {
      case Open => OpenBytesSnoc(r.openedAtList, OpenEvent(ev.id, ev.at));
      case Click =>
        IdBytesSnoc(r.clickEventIds, ev.id);
        ClickBytesSnoc(r.clickList, ClickEvent(ev.id, ev.link, ev.at));
      case _ =>
    }
  }

  lemma OpenBytesSnoc(l: seq<OpenEvent>, e: OpenEvent)
    ensures OpenBytes(l + [e]) == OpenBytes(l) + 27 + QuotedLen(e.id) + TimeLen(e.at)
  {
    assert (l + [e])[..|l|] == l;
  }

  lemma IdBytesSnoc(l: seq<string>, id: string)
    ensures IdBytes(l + [id]) == IdBytes(l) + 1 + QuotedLen(id)
  {
    assert (l + [id])[..|l|] == l;
  }

  lemma ClickBytesSnoc(l: seq<ClickEvent>, c: ClickEvent)
    ensures ClickBytes(l + [c]) == ClickBytes(l) + 36 + QuotedLen(c.id) + QuotedLen(c.link) + TimeLen(c.at)
  {
    assert (l + [c])[..|l|] == l;
  }

  lemma GrownEncodable(r: Rec, ev: Event)
    requires |r.openedAtList| < INT64_MAX && Encodable(r) && TimeOk(ev.at)
    ensures Encodable(Grown(r, ev))
  {
    var g := Grown(r, ev);
    match ev.kind {
      case Open => assert forall e :: e in g.openedAtList <==> e in r.openedAtList || e == OpenEvent(ev.id, ev.at);
      case Click => assert forall c :: c in g.clickList <==> c in r.clickList || c == ClickEvent(ev.id, ev.link, ev.at);
      case _ =>
    }
  }

  lemma RoomyKeeps(r: Rec, used: nat, n: nat, ev: Event)
    requires Roomy(r, used, n) && n < 500 && Encodable(r) && TimeOk(ev.at)
    requires StaticBytes(r.header) + SCALAR_MAX + 54 + used + EntryBytes(ev) <= MAX_KV_RECORD_BYTES
    ensures Effect(r, ev) == Grown(r, ev)
  {
    GrownRoomy(r, used, n, ev);
    GrownEncodable(r, ev);
    RoomyFits(Grown(r, ev), used + EntryBytes(ev), n + 1);
  }

  lemma GrownRetains(r: Rec, ev: Event)
    requires |r.openedAtList| < INT64_MAX
    ensures Retained(Grown(r, ev), ev)
  {
    var g := Grown(r, ev);
    match ev.kind {
      case Open => assert g.openedAtList[|g.openedAtList| - 1].id == ev.id;
      case Click =>
        assert g.clickEventIds[|g.clickEventIds| - 1] == ev.id;
        assert g.clickList[|g.clickList| - 1].id == ev.id;
      case _ =>
    }
  }

  /** A click id is held by both lists or by neither. */
  ghost predicate Paired(r: Rec) {
    forall id :: id in r.clickEventIds <==> exists i :: 0 <= i < |r.clickList| && r.clickList[i].id == id
  }

  lemma GrownPaired(r: Rec, ev: Event)
    requires |r.openedAtList| < INT64_MAX && Paired(r)
    ensures Paired(Grown(r, ev))
  {
    hide Effect;
    var g := Grown(r, ev);
    if ev.kind == Click {
      var n := |r.clickList|;
      assert g.clickList[n].id == ev.id && g.clickEventIds[|r.clickEventIds|] == ev.id;
      forall id | id in g.clickEventIds ensures exists i :: 0 <= i < |g.clickList| && g.clickList[i].id == id {
        if id != ev.id {
          var i :| 0 <= i < |r.clickList| && r.clickList[i].id == id;
          assert g.clickList[i].id == id;
        }
      }
    } else {
      FrameClicks(r, ev);
    }
  }

  lemma FrameClicks(r: Rec, ev: Event)
    requires |r.openedAtList| < INT64_MAX && ev.kind != Click
    ensures Grown(r, ev).clickEventIds == r.clickEventIds && Grown(r, ev).clickList == r.clickList
  {
  }

  lemma RoomyStep(r: Rec, used: nat, n: nat, ev: Event)
    requires Covered(r) && Paired(r) && Roomy(r, used, n) && n < 500 && TimeOk(ev.at)
    requires StaticBytes(r.header) + SCALAR_MAX + 54 + used + EntryBytes(ev) <= MAX_KV_RECORD_BYTES
    ensures var s := Apply(r, ev).rec;
            Paired(s) && Roomy(s, used + EntryBytes(ev), n + 1) && Retained(s, ev)
  {
    hide Roomy, Grown, Paired, Effect, EntryBytes, Covered, Apply;
    assert Encodable(r) by { CoveredEncodes(r); }
    ApplyCovered(r, ev);
    if NoOp(r, ev) {
      NoOpRetains(r, ev);
      RoomyWeaker(r, used, n, ev);
    } else {
      RoomyLists(r, used, n);
      RoomyKeeps(r, used, n, ev);
      GrownRoomy(r, used, n, ev);
      GrownPaired(r, ev);
      GrownRetains(r, ev);
    }
  }

  lemma CoveredEncodes(r: Rec)
    requires Covered(r)
    ensures Encodable(r)
  {
  }

  lemma NoOpRetains(r: Rec, ev: Event)
    requires NoOp(r, ev) && Paired(r)
    ensures Retained(r, ev)
  {
  }

  lemma RoomyLists(r: Rec, used: nat, n: nat)
    requires Roomy(r, used, n) && n < 500
    ensures |r.openedAtList| < INT64_MAX
  {
  }

  lemma RoomyWeaker(r: Rec, used: nat, n: nat, ev: Event)
    requires Roomy(r, used, n)
    requires StaticBytes(r.header) + SCALAR_MAX + 54 + used + EntryBytes(ev) <= MAX_KV_RECORD_BYTES
    ensures Roomy(r, used + EntryBytes(ev), n + 1)
  {
    hide StaticBytes, EntryBytes;
  }

  lemma {:induction false} RoomyRun(h: Header, evs: seq<Event>)
    requires HeaderOk(h) && EventsOk(evs) && RoomForAll(h, evs)
    ensures var r := Fold(NewRec(h), evs);
            r.header == h && Roomy(r, AllBytes(evs), |evs|) && Paired(r) && (evs != [] ==> Retained(r, evs[|evs| - 1]))
  {
    if evs != [] {
      hide Roomy, Paired, Retained, Apply, StaticBytes, EntryBytes;
      var init, ev := evs[..|evs| - 1], evs[|evs| - 1];
      RoomyRun(h, init);
      assert Covered(Fold(NewRec(h), init)) by { FoldTally(h, init); TallyCovers(h, init); }
      RoomyStep(Fold(NewRec(h), init), AllBytes(init), |init|, ev);
      HeaderKept(Fold(NewRec(h), init), ev);
    }
  }

  lemma TallyCovers(h: Header, evs: seq<Event>)
    requires Tally(Fold(NewRec(h), evs), evs, Counted(NewRec(h), evs, Open), Counted(NewRec(h), evs, Click))
    ensures Covered(Fold(NewRec(h), evs))
  {
    hide Fold, Counted;
  }

  lemma HeaderKept(r: Rec, ev: Event)
    ensures Apply(r, ev).rec.header == r.header
  {
    hide Compact, MarshalsWithin;
    CompactFrame(r);
  }

  /** Enough room for every delivery means no append is ever rolled back. */
  lemma RoomMeansLossless(h: Header, evs: seq<Event>)
    requires HeaderOk(h) && EventsOk(evs) && RoomForAll(h, evs)
    ensures Lossless(NewRec(h), evs)
  {
    hide Fold, Retained, AllBytes, StaticBytes, HeaderOk;
    forall k | 0 <= k < |evs| ensures Retained(Fold(NewRec(h), evs[..k + 1]), evs[k]) {
      AllBytesPrefix(evs, k + 1);
      RoomyRun(h, evs[..k + 1]);
    }
  }

  lemma {:induction false} AllBytesPrefix(evs: seq<Event>, n: nat)
    requires n <= |evs|
    ensures AllBytes(evs[..n]) <= AllBytes(evs)
  {
    if n < |evs| {
      AllBytesPrefix(evs[..|evs| - 1], n);
      assert evs[..|evs| - 1][..n] == evs[..n];
    } else {
      assert evs[..n] == evs;
    }
  }
}
