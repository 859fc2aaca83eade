/** What the counters, flags and last-seen times of a record mean in terms of the
    deliveries it received, in any order and with any repetition. */
module Counting {
  import opened Wire
  import opened Record
  import opened Budget

  /** The distinct ids among the deliveries of one kind. */
  ghost function Ids(evs: seq<Event>, k: Kind): set<string> {
    set e | e in evs && e.kind == k :: e.id
  }

  function Deliveries(evs: seq<Event>, k: Kind): nat {
    if evs == [] then 0 else Deliveries(evs[..|evs| - 1], k) + if evs[|evs| - 1].kind == k then 1 else 0
  }

  /** The deliveries of one kind that changed the record, in order. */
  function Counted(r: Rec, evs: seq<Event>, k: Kind): seq<Event> {
    if evs == [] then []
    else
      var init, ev := evs[..|evs| - 1], evs[|evs| - 1];
      Counted(r, init, k) + if ev.kind == k && Apply(Fold(r, init), ev).applied then [ev] else []
  }

  /** The latest time among the events. */
  function MaxAt(evs: seq<Event>): Option<int> {
    if evs == [] then None else Later(MaxAt(evs[..|evs| - 1]), evs[|evs| - 1].at)
  }

  lemma CountedSnoc(r: Rec, evs: seq<Event>, ev: Event, k: Kind)
    ensures Counted(r, evs + [ev], k) ==
            if ev.kind == k && Apply(Fold(r, evs), ev).applied then Counted(r, evs, k) + [ev] else Counted(r, evs, k)
  {
    assert (evs + [ev])[..|evs|] == evs;
  }

  lemma MaxAtSnoc(evs: seq<Event>, ev: Event)
    ensures MaxAt(evs + [ev]) == Later(MaxAt(evs), ev.at)
  {
    assert (evs + [ev])[..|evs|] == evs;
  }

  /** MaxAt is attained and is an upper bound. */
  lemma {:induction false} MaxAtIsMaximum(evs: seq<Event>)
    ensures evs == [] <==> MaxAt(evs).None?
    ensures evs != [] ==> exists e :: e in evs && e.at == MaxAt(evs).value
    ensures forall e :: e in evs ==> MaxAt(evs).Some? && e.at <= MaxAt(evs).value
  {
    if evs != [] {
      var init, ev := evs[..|evs| - 1], evs[|evs| - 1];
      assert evs == init + [ev];
      MaxAtIsMaximum(init);
      if MaxAt(evs) == Some(ev.at) {
        assert ev in evs;
      }
    }
  }

  lemma IdsSnoc(evs: seq<Event>, ev: Event, k: Kind)
    ensures Ids(evs + [ev], k) == Ids(evs, k) + if ev.kind == k then {ev.id} else {}
  {
    var s := evs + [ev];
    assert forall e :: e in s <==> e in evs || e == ev;
    forall x | x in Ids(evs, k) ensures x in Ids(s, k) {
      var e :| e in evs && e.kind == k && e.id == x;
      assert e in s;
    }
    if ev.kind == k { assert ev in s; }
  }

  lemma {:induction false} IdsAtMost(evs: seq<Event>, k: Kind)
    ensures |Ids(evs, k)| <= |evs|
  {
    if evs == [] {
      assert Ids(evs, k) == {};
    } else {
      var init, ev := evs[..|evs| - 1], evs[|evs| - 1];
      assert evs == init + [ev];
      IdsSnoc(init, ev, k);
      IdsAtMost(init, k);
    }
  }

  lemma {:induction false} DeliveriesAtMost(evs: seq<Event>, k: Kind)
    ensures Deliveries(evs, k) <= |evs|
  {
    if evs != [] { DeliveriesAtMost(evs[..|evs| - 1], k); }
  }

  // ---- one event on a record whose counter covers its list ----

  ghost predicate Covered(r: Rec) {
    Budgeted(r) && |r.openedAtList| <= r.openCount
  }

  /** There compaction is the identity, so an event is a no-op or its plain effect. */
  lemma ApplyCovered(r: Rec, ev: Event)
    requires Covered(r)
    ensures Apply(r, ev) == if NoOp(r, ev) then Applied(r, false) else Applied(Effect(r, ev), true)
  {
    hide Budgeted, Effect, Compact;
    CompactIsCountOnly(r);
  }

  lemma OpenEffect(r: Rec, ev: Event)
    requires ev.kind == Open && r.openCount < INT64_MAX
    ensures var s := Effect(r, ev);
            && s.openCount == r.openCount + 1 && s.wasOpened && s.lastOpenedAt == Later(r.lastOpenedAt, ev.at)
            && (s.openedAtList == r.openedAtList || s.openedAtList == r.openedAtList + [OpenEvent(ev.id, ev.at)])
            && s == r.(wasOpened := s.wasOpened, openCount := s.openCount, lastOpenedAt := s.lastOpenedAt,
                       openedAtList := s.openedAtList)
  {
    hide MarshalsWithin;
  }

  lemma ClickEffect(r: Rec, ev: Event)
    requires ev.kind == Click && r.clickCount < INT64_MAX
    ensures var s := Effect(r, ev);
            && s.clickCount == r.clickCount + 1 && s.clicked && s.lastClickedAt == Later(r.lastClickedAt, ev.at)
            && (s.clickEventIds == r.clickEventIds || s.clickEventIds == r.clickEventIds + [ev.id])
            && (s.clickList == r.clickList || s.clickList == r.clickList + [ClickEvent(ev.id, ev.link, ev.at)])
            && s == r.(clicked := s.clicked, clickCount := s.clickCount, lastClickedAt := s.lastClickedAt,
                       clickEventIds := s.clickEventIds, clickList := s.clickList)
  {
    hide MarshalsWithin;
  }

  // ---- ids held by the record ----

  ghost function OpenIdsOf(r: Rec): set<string> {
    set e | e in r.openedAtList :: e.id
  }

  ghost function DedupIdsOf(r: Rec): set<string> {
    set x | x in r.clickEventIds
  }

  ghost function HistoryIdsOf(r: Rec): set<string> {
    set e | e in r.clickList :: e.id
  }

  /** A click is recognised by either of its two lists. */
  ghost function ClickIdsOf(r: Rec): set<string> {
    DedupIdsOf(r) + HistoryIdsOf(r)
  }

  lemma StoredIsHeld(r: Rec, id: string)
    ensures OpenStored(r, id) <==> id in OpenIdsOf(r)
    ensures ClickStored(r, id) <==> id in ClickIdsOf(r)
  {
    if OpenStored(r, id) {
      var i :| 0 <= i < |r.openedAtList| && r.openedAtList[i].id == id;
      assert r.openedAtList[i] in r.openedAtList;
    }
    if ClickStored(r, id) && id !in r.clickEventIds {
      var i :| 0 <= i < |r.clickList| && r.clickList[i].id == id;
      assert r.clickList[i] in r.clickList;
    }
  }

  lemma HeldAfterOpen(r: Rec, s: Rec, e: OpenEvent)
    requires s.openedAtList == r.openedAtList + [e]
    ensures OpenIdsOf(s) == OpenIdsOf(r) + {e.id}
  {
    assert forall x :: x in s.openedAtList <==> x in r.openedAtList || x == e;
    forall id | id in OpenIdsOf(r) ensures id in OpenIdsOf(s) {
      var x :| x in r.openedAtList && x.id == id;
      assert x in s.openedAtList;
    }
    assert e in s.openedAtList;
  }

  lemma HeldAfterClick(r: Rec, s: Rec, id: string, c: ClickEvent)
    requires c.id == id
    requires s.clickEventIds == r.clickEventIds || s.clickEventIds == r.clickEventIds + [id]
    requires s.clickList == r.clickList || s.clickList == r.clickList + [c]
    ensures ClickIdsOf(r) <= ClickIdsOf(s) <= ClickIdsOf(r) + {id}
  {
    assert forall x :: x in s.clickList ==> x in r.clickList || x == c;
    assert forall x :: x in r.clickList ==> x in s.clickList;
    assert forall x :: x in r.clickEventIds ==> x in s.clickEventIds;
    forall x | x in ClickIdsOf(r) ensures x in ClickIdsOf(s) {
      if x !in r.clickEventIds {
        var y :| y in r.clickList && y.id == x;
        assert y in s.clickList;
      }
    }
  }

  // ---- the tally ----

  /** `opens` and `clicks` are the counted deliveries among `evs`. */
  ghost predicate Tally(r: Rec, evs: seq<Event>, opens: seq<Event>, clicks: seq<Event>) {
    && Covered(r)
    && OpenTally(r, evs, opens)
    && ClickTally(r, evs, clicks)
    && (r.delivered <==> Ids(evs, Delivery) != {})
    && (r.failed <==> Ids(evs, Bounce) + Ids(evs, Complaint) != {})
  }

  ghost predicate OpenTally(r: Rec, evs: seq<Event>, opens: seq<Event>) {
    && r.openCount == |opens| <= Deliveries(evs, Open)
    && Ids(opens, Open) == Ids(evs, Open) && OpenIdsOf(r) <= Ids(evs, Open)
    && r.lastOpenedAt == MaxAt(opens) && (r.wasOpened <==> opens != [])
  }

  ghost predicate ClickTally(r: Rec, evs: seq<Event>, clicks: seq<Event>) {
    && r.clickCount == |clicks| <= Deliveries(evs, Click)
    && Ids(clicks, Click) == Ids(evs, Click) && ClickIdsOf(r) <= Ids(evs, Click)
    && r.lastClickedAt == MaxAt(clicks) && (r.clicked <==> clicks != [])
  }

  lemma DeliveriesSnoc(evs: seq<Event>, ev: Event, k: Kind)
    ensures Deliveries(evs + [ev], k) == Deliveries(evs, k) + if ev.kind == k then 1 else 0
  {
    assert (evs + [ev])[..|evs|] == evs;
  }

  lemma OpenTallyStep(r: Rec, evs: seq<Event>, opens: seq<Event>, ev: Event)
    requires OpenTally(r, evs, opens) && ev.kind == Open && r.openCount < INT64_MAX
    ensures OpenTally(if NoOp(r, ev) then r else Effect(r, ev), evs + [ev], if NoOp(r, ev) then opens else opens + [ev])
  {
    hide Effect, Ids, OpenIdsOf, Deliveries, MaxAt;
    StoredIsHeld(r, ev.id);
    DeliveriesSnoc(evs, ev, Open);
    IdsSnoc(evs, ev, Open);
    IdsSnoc(opens, ev, Open);
    MaxAtSnoc(opens, ev);
    if !NoOp(r, ev) {
      OpenEffect(r, ev);
      var s := Effect(r, ev);
      if s.openedAtList != r.openedAtList {
        HeldAfterOpen(r, s, OpenEvent(ev.id, ev.at));
      } else {
        SameOpenIds(r, s);
      }
    }
  }

  lemma SameOpenIds(r: Rec, s: Rec)
    requires r.openedAtList == s.openedAtList
    ensures OpenIdsOf(r) == OpenIdsOf(s)
  {
  }

  lemma ClickTallyStep(r: Rec, evs: seq<Event>, clicks: seq<Event>, ev: Event)
    requires ClickTally(r, evs, clicks) && ev.kind == Click && r.clickCount < INT64_MAX
    ensures ClickTally(if NoOp(r, ev) then r else Effect(r, ev), evs + [ev],
                       if NoOp(r, ev) then clicks else clicks + [ev])
  {
    hide Effect, Ids, ClickIdsOf, Deliveries, MaxAt;
    StoredIsHeld(r, ev.id);
    DeliveriesSnoc(evs, ev, Click);
    IdsSnoc(evs, ev, Click);
    IdsSnoc(clicks, ev, Click);
    MaxAtSnoc(clicks, ev);
    if !NoOp(r, ev) {
      ClickEffect(r, ev);
      HeldAfterClick(r, Effect(r, ev), ev.id, ClickEvent(ev.id, ev.link, ev.at));
    }
  }

  /** The open fields and the open deliveries are unaffected by any other event. */
  lemma OpenTallyFrame(r: Rec, s: Rec, evs: seq<Event>, opens: seq<Event>, ev: Event)
    requires OpenTally(r, evs, opens) && ev.kind != Open
    requires s.openCount == r.openCount && s.openedAtList == r.openedAtList
    requires s.lastOpenedAt == r.lastOpenedAt && s.wasOpened == r.wasOpened
    ensures OpenTally(s, evs + [ev], opens)
  {
    DeliveriesSnoc(evs, ev, Open);
    IdsSnoc(evs, ev, Open);
  }

  lemma ClickTallyFrame(r: Rec, s: Rec, evs: seq<Event>, clicks: seq<Event>, ev: Event)
    requires ClickTally(r, evs, clicks) && ev.kind != Click
    requires s.clickCount == r.clickCount && s.clickEventIds == r.clickEventIds && s.clickList == r.clickList
    requires s.lastClickedAt == r.lastClickedAt && s.clicked == r.clicked
    ensures ClickTally(s, evs + [ev], clicks)
  {
    DeliveriesSnoc(evs, ev, Click);
    IdsSnoc(evs, ev, Click);
  }

  lemma FlagStep(r: Rec, evs: seq<Event>, ev: Event)
    requires (r.delivered <==> Ids(evs, Delivery) != {}) && (r.failed <==> Ids(evs, Bounce) + Ids(evs, Complaint) != {})
    ensures var s := if NoOp(r, ev) then r else Effect(r, ev);
            && (s.delivered <==> Ids(evs + [ev], Delivery) != {})
            && (s.failed <==> Ids(evs + [ev], Bounce) + Ids(evs + [ev], Complaint) != {})
  {
    hide Ids, KeepOpen, KeepClick;
    IdsSnoc(evs, ev, Delivery);
    IdsSnoc(evs, ev, Bounce);
    IdsSnoc(evs, ev, Complaint);
    FlagsFramed(r, ev);
    if ev.kind == Bounce || ev.kind == Complaint || ev.kind == Delivery {
      assert ev.id in Ids(evs + [ev], ev.kind);
    }
  }

  lemma FlagsFramed(r: Rec, ev: Event)
    ensures ev.kind == Open || ev.kind == Click ==>
              Effect(r, ev).delivered == r.delivered && Effect(r, ev).failed == r.failed
  {
    hide MarshalsWithin;
  }

  lemma TallyStep(r: Rec, evs: seq<Event>, opens: seq<Event>, clicks: seq<Event>, ev: Event)
    requires Tally(r, evs, opens, clicks) && TimeOk(ev.at)
    requires r.openCount < INT64_MAX && r.clickCount < INT64_MAX
    ensures var a := Apply(r, ev);
            Tally(a.rec, evs + [ev], if ev.kind == Open && a.applied then opens + [ev] else opens,
                  if ev.kind == Click && a.applied then clicks + [ev] else clicks)
  {
    hide OpenTally, ClickTally, Budgeted, Effect, NoOp, Apply;
    ApplyCovered(r, ev);
    ApplyKeepsBudget(r, ev);
    FlagStep(r, evs, ev);
    var s := if NoOp(r, ev) then r else Effect(r, ev);
    EffectFrame(r, ev);
    if ev.kind == Open { OpenTallyStep(r, evs, opens, ev); } else { OpenTallyFrame(r, s, evs, opens, ev); }
    if ev.kind == Click { ClickTallyStep(r, evs, clicks, ev); } else { ClickTallyFrame(r, s, evs, clicks, ev); }
  }

  lemma EffectFrame(r: Rec, ev: Event)
    requires r.openCount < INT64_MAX && r.clickCount < INT64_MAX
    ensures var s := Effect(r, ev);
            && (ev.kind != Open ==> s.openCount == r.openCount && s.openedAtList == r.openedAtList &&
                                    s.lastOpenedAt == r.lastOpenedAt && s.wasOpened == r.wasOpened)
            && (ev.kind != Click ==> s.clickCount == r.clickCount && s.clickEventIds == r.clickEventIds &&
                                     s.clickList == r.clickList && s.lastClickedAt == r.lastClickedAt &&
                                     s.clicked == r.clicked)
            && |s.openedAtList| - s.openCount <= |r.openedAtList| - r.openCount
  {
    hide KeepOpen, KeepClick;
    if ev.kind == Open { OpenEffect(r, ev); }
    if ev.kind == Click { ClickEffect(r, ev); }
  }

  lemma {:induction false} FoldTally(h: Header, evs: seq<Event>)
    requires HeaderOk(h) && EventsOk(evs) && |evs| <= INT64_MAX
    ensures Tally(Fold(NewRec(h), evs), evs, Counted(NewRec(h), evs, Open), Counted(NewRec(h), evs, Click))
  {
    var r := NewRec(h);
    if evs == [] {
      NewRecBudgeted(h);
      EmptyTally(h);
    } else {
      hide Tally, Apply, Fold, Counted;
      var init, ev := evs[..|evs| - 1], evs[|evs| - 1];
      assert evs == init + [ev];
      FoldTally(h, init);
      TallyRoom(Fold(r, init), init, Counted(r, init, Open), Counted(r, init, Click));
      TallyStep(Fold(r, init), init, Counted(r, init, Open), Counted(r, init, Click), ev);
      FoldSnoc(r, init, ev);
      CountedSnoc(r, init, ev, Open);
      CountedSnoc(r, init, ev, Click);
    }
  }

  lemma EmptyTally(h: Header)
    requires Budgeted(NewRec(h))
    ensures Tally(NewRec(h), [], [], [])
  {
    hide Budgeted;
    forall k: Kind ensures Ids([], k) == {} {}
  }

  lemma TallyRoom(r: Rec, evs: seq<Event>, opens: seq<Event>, clicks: seq<Event>)
    requires Tally(r, evs, opens, clicks) && |evs| < INT64_MAX
    ensures r.openCount < INT64_MAX && r.clickCount < INT64_MAX
  {
    DeliveriesAtMost(evs, Open);
    DeliveriesAtMost(evs, Click);
  }

  /** Counts never undercount, even with exhausted windows: each counter lies
      between the distinct ids and the deliveries of its kind, it is the number of
      deliveries that changed the record, and the last-seen time is their maximum. */
  lemma CountsBracketed(h: Header, evs: seq<Event>)
    requires HeaderOk(h) && EventsOk(evs) && |evs| <= INT64_MAX
    ensures var r := Fold(NewRec(h), evs);
            var opens, clicks := Counted(NewRec(h), evs, Open), Counted(NewRec(h), evs, Click);
            && |Ids(evs, Open)| <= r.openCount <= Deliveries(evs, Open)
            && |Ids(evs, Click)| <= r.clickCount <= Deliveries(evs, Click)
            && r.openCount == |opens| && r.lastOpenedAt == MaxAt(opens)
            && r.clickCount == |clicks| && r.lastClickedAt == MaxAt(clicks)
            && OpenIdsOf(r) <= Ids(evs, Open) && ClickIdsOf(r) <= Ids(evs, Click)
  {
    hide Budgeted, Fold;
    FoldTally(h, evs);
    IdsAtMost(Counted(NewRec(h), evs, Open), Open);
    IdsAtMost(Counted(NewRec(h), evs, Click), Click);
  }

  /** The counter is exact up to the largest int64 and no further: at the limit
      one more open makes it negative. */
  lemma CountExactBelowLimit(r: Rec, ev: Event)
    requires Covered(r) && ev.kind == Open && !OpenStored(r, ev.id)
    ensures Apply(r, ev).rec.openCount == r.openCount + 1 <==> r.openCount < INT64_MAX
  {
    hide Budgeted, MarshalsWithin;
    ApplyCovered(r, ev);
  }

  /** The redelivery of a stored id leaves the record exactly as it is. */
  lemma ReplayChangesNothing(h: Header, before: seq<Event>, after: seq<Event>, ev: Event)
    requires HeaderOk(h) && EventsOk(before) && EventsOk(after) && |before| + |after| <= INT64_MAX
    requires Stored(Fold(NewRec(h), before), ev)
    ensures var s := Fold(NewRec(h), before + after); Apply(s, ev) == Applied(s, false)
  {
    hide Budgeted, Fold, Apply;
    StoredIdsStay(h, before, after, ev);
    FoldTally(h, before + after);
    ApplyCovered(Fold(NewRec(h), before + after), ev);
  }
}
