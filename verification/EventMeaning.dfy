/** What one engagement event does to each field of a record, and what the times of
    the flags mean after any events. */
module EventMeaning {
  import opened Wire
  import opened Record
  import opened Budget
  import opened Counting

  /** An event is applied exactly if the record does not show it yet: an open or a
      click by its id, the others by their flag. */
  lemma AppliedExactly(r: Rec, ev: Event)
    ensures Apply(r, ev).applied <==>
            match ev.kind
            case Open => forall e :: e in r.openedAtList ==> e.id != ev.id
            case Click => ev.id !in r.clickEventIds && forall e :: e in r.clickList ==> e.id != ev.id
            case Delivery => !r.delivered
            case Bounce => !r.failed
            case Complaint => !r.failed
  {
    hide Compact, Effect;
    CompactFrame(r);
    StoredIsHeld(r, ev.id);
    StoredIsHeld(Compact(r), ev.id);
  }

  /** The times of the flags: an applied delivery, bounce or complaint stores its own
      time beside its flag, and nothing else ever touches a flag or its time. */
  lemma FlagTimes(r: Rec, ev: Event)
    ensures var a := Apply(r, ev);
            && a.rec.delivered == (r.delivered || ev.kind == Delivery)
            && a.rec.failed == (r.failed || ev.kind == Bounce || ev.kind == Complaint)
            && a.rec.deliveredAt == (if ev.kind == Delivery && a.applied then Some(ev.at) else r.deliveredAt)
            && a.rec.failedAt ==
               (if (ev.kind == Bounce || ev.kind == Complaint) && a.applied then Some(ev.at) else r.failedAt)
  {
    hide Compact, KeepOpen, KeepClick;
    CompactFrame(r);
    KeepFrames(Compact(r), ev);
  }

  lemma KeepFrames(r: Rec, ev: Event)
    ensures var c := CountOpen(r, ev.at); KeepOpen(c, ev) == c.(openedAtList := KeepOpen(c, ev).openedAtList)
    ensures var c := CountClick(r, ev.at);
            KeepClick(c, ev) ==
            c.(clickEventIds := KeepClick(c, ev).clickEventIds, clickList := KeepClick(c, ev).clickList)
  {
    hide MarshalsWithin;
  }

  /** A single-fire event changes its flag and time and nothing else. */
  lemma SingleFire(r: Rec, ev: Event)
    requires Covered(r) && ev.kind != Open && ev.kind != Click
    ensures Apply(r, ev).rec ==
            if ev.kind == Delivery then
              (if r.delivered then r else r.(delivered := true, deliveredAt := Some(ev.at)))
            else if r.failed then r
            else r.(failed := true, failedAt := Some(ev.at))
  {
    ApplyCovered(r, ev);
  }

  predicate Fits50K(r: Rec) {
    Encodable(r) && Size(r) <= 50_000
  }

  ghost predicate IsLater(cur: Option<int>, t: int, next: Option<int>) {
    next.Some? && next.value >= t && (cur.Some? ==> next.value >= cur.value) && (next == Some(t) || next == cur)
  }

  /** An applied open raises the count by one and the last-seen time to the later one;
      its entry goes to the end of the list exactly if the list is below 500 and the
      record still fits 50,000 bytes with it. */
  lemma OpenMeaning(r: Rec, ev: Event)
    requires Covered(r) && ev.kind == Open && r.openCount < INT64_MAX
    ensures var s := Apply(r, ev).rec;
            Apply(r, ev).applied ==>
            && s.wasOpened && s.openCount == r.openCount + 1 && IsLater(r.lastOpenedAt, ev.at, s.lastOpenedAt)
            && s == r.(wasOpened := true, openCount := s.openCount, lastOpenedAt := s.lastOpenedAt,
                       openedAtList := s.openedAtList)
            && s.openedAtList ==
               if |r.openedAtList| < 500 && Fits50K(s.(openedAtList := r.openedAtList + [OpenEvent(ev.id, ev.at)]))
               then r.openedAtList + [OpenEvent(ev.id, ev.at)] else r.openedAtList
  {
    hide Encodable, Size, Covered;
    ApplyCovered(r, ev);
    OpenEffect(r, ev);
  }

  /** Adding a history entry never makes a record smaller or repairs its encoding. */
  lemma HistoryOnlyGrows(r: Rec, c: ClickEvent)
    requires Fits50K(r.(clickList := r.clickList + [c]))
    ensures Fits50K(r)
  {
    var s := r.(clickList := r.clickList + [c]);
    assert ListBytes(r) <= ListBytes(s) by {
      assert s.clickList[..|r.clickList|] == r.clickList;
      assert ClickBytes(s.clickList) >= ClickBytes(r.clickList);
    }
    assert ScalarBytes(s) == ScalarBytes(r);
    forall e | e in r.clickList ensures TimeOk(e.at) { assert e in s.clickList; }
  }

  /** An applied click raises the count by one and the last-seen time to the later one.
      Its dedup id is kept exactly if there are fewer than 500 and the record fits with
      it, whether or not the history entry does; the entry is kept exactly if the
      record fits with both. */
  lemma ClickMeaning(r: Rec, ev: Event)
    requires Covered(r) && ev.kind == Click && r.clickCount < INT64_MAX
    ensures var s, c := Apply(r, ev).rec, ClickEvent(ev.id, ev.link, ev.at);
            Apply(r, ev).applied ==>
            && s.clicked && s.clickCount == r.clickCount + 1 && IsLater(r.lastClickedAt, ev.at, s.lastClickedAt)
            && s == r.(clicked := true, clickCount := s.clickCount, lastClickedAt := s.lastClickedAt,
                       clickEventIds := s.clickEventIds, clickList := s.clickList)
            && var counted := s.(clickEventIds := r.clickEventIds, clickList := r.clickList);
               var withId := if |r.clickEventIds| < 500 then counted.(clickEventIds := r.clickEventIds + [ev.id])
                             else counted;
               && s.clickEventIds == (if Fits50K(withId) then withId.clickEventIds else r.clickEventIds)
               && s.clickList == if Fits50K(withId.(clickList := r.clickList + [c])) then r.clickList + [c]
                                 else r.clickList
  {
    hide Encodable, Size, Covered;
    ApplyCovered(r, ev);
    ClickEffect(r, ev);
    var counted := CountClick(r, ev.at);
    var withId := if |r.clickEventIds| < 500 then counted.(clickEventIds := r.clickEventIds + [ev.id]) else counted;
    var c := ClickEvent(ev.id, ev.link, ev.at);
    if Fits50K(withId.(clickList := withId.clickList + [c])) { HistoryOnlyGrows(withId, c); }
  }

  // ---- whole runs ----

  /** t is the time of the first of the events of these kinds, or None without any. */
  ghost predicate IsFirst(t: Option<int>, evs: seq<Event>, kinds: set<Kind>) {
    && (t.None? <==> forall i :: 0 <= i < |evs| ==> evs[i].kind !in kinds)
    && (t.Some? ==> exists i :: 0 <= i < |evs| && evs[i].kind in kinds && evs[i].at == t.value &&
                      forall j :: 0 <= j < i ==> evs[j].kind !in kinds)
  }

  lemma FirstStays(t: Option<int>, evs: seq<Event>, ev: Event, kinds: set<Kind>)
    requires IsFirst(t, evs, kinds)
    ensures IsFirst(if t.None? && ev.kind in kinds then Some(ev.at) else t, evs + [ev], kinds)
  {
    var s := evs + [ev];
    if t.Some? {
      var i :| 0 <= i < |evs| && evs[i].kind in kinds && evs[i].at == t.value &&
               forall j :: 0 <= j < i ==> evs[j].kind !in kinds;
      assert s[i] == evs[i] && forall j :: 0 <= j < i ==> s[j].kind !in kinds;
    } else if ev.kind in kinds {
      assert s[|evs|] == ev && forall j :: 0 <= j < |evs| ==> s[j].kind !in kinds;
    }
  }

  /** After any events on a fresh record, delivered_at is the time of the first delivery
      and failed_at that of the first bounce or complaint; the flags say whether there
      was one. */
  lemma {:induction false} FirstTimes(h: Header, evs: seq<Event>)
    ensures var r := Fold(NewRec(h), evs);
            && IsFirst(r.deliveredAt, evs, {Delivery}) && IsFirst(r.failedAt, evs, {Bounce, Complaint})
            && (r.delivered <==> r.deliveredAt.Some?) && (r.failed <==> r.failedAt.Some?)
  {
    if evs != [] {
      hide Apply, IsFirst;
      var init, ev := evs[..|evs| - 1], evs[|evs| - 1];
      assert evs == init + [ev];
      var r := Fold(NewRec(h), init);
      FirstTimes(h, init);
      FoldSnoc(NewRec(h), init, ev);
      FlagTimes(r, ev);
      AppliedExactly(r, ev);
      FirstStays(r.deliveredAt, init, ev, {Delivery});
      FirstStays(r.failedAt, init, ev, {Bounce, Complaint});
    }
  }
}
