/** The byte budget over every record reachable from a fresh one, and what
    follows from it: compaction never trims, and a stored id is stored for good. */
module Budget {
  import opened Wire
  import opened Record

  // ---- runs of events ----

  /** The record after the events, in order. */
  function Fold(r: Rec, evs: seq<Event>): Rec {
    if evs == [] then r else Apply(Fold(r, evs[..|evs| - 1]), evs[|evs| - 1]).rec
  }

  lemma FoldSnoc(r: Rec, evs: seq<Event>, ev: Event)
    ensures Fold(r, evs + [ev]) == Apply(Fold(r, evs), ev).rec
  {
    assert (evs + [ev])[..|evs|] == evs;
  }

  lemma {:induction false} FoldConcat(r: Rec, a: seq<Event>, b: seq<Event>)
    ensures Fold(r, a + b) == Fold(Fold(r, a), b)
    decreases |b|
  {
    if b == [] {
      assert a + b == a;
    } else {
      var i, x := b[..|b| - 1], b[|b| - 1];
      assert a + b == (a + i) + [x];
      FoldSnoc(r, a + i, x);
      FoldConcat(r, a, i);
    }
  }

  /** Every resolved event carries a time JSON can hold. */
  predicate EventsOk(evs: seq<Event>) {
    forall i :: 0 <= i < |evs| ==> TimeOk(evs[i].at)
  }

  // ---- the budget ----

  const SCALAR_MIN := 18
  const SCALAR_MAX := 254
  /** What send_email's field limits allow: 512 bytes of address, 998 of subject. */
  const MAX_ADDRESS_FIELD := 512
  const MAX_SUBJECT := 998
  const STATIC_MAX := 10_000
  const RECORD_BOUND := MAX_KV_RECORD_BYTES + SCALAR_MAX - SCALAR_MIN

  /** What send_email lets through, under an issued handle and a generated id. */
  predicate HeaderOk(h: Header) {
    && IsGroupHandle(h.groupId) && IsUuid(h.emailId)
    && RawLen(h.to) <= MAX_ADDRESS_FIELD && RawLen(h.subject) <= MAX_SUBJECT && TimeOk(h.sentAt)
  }

  lemma HeaderBytes(h: Header)
    requires HeaderOk(h)
    ensures StaticBytes(h) <= STATIC_MAX
  {
    assert forall i :: 4 <= i < 36 ==> LowerHex(h.groupId[i]);
    assert forall i :: 0 <= i < 36 ==> (Dash(i) ==> h.emailId[i] == '-') && (!Dash(i) ==> Hex(h.emailId[i]));
    AsciiLen(h.groupId);
    AsciiLen(h.emailId);
  }

  lemma ScalarRange(r: Rec)
    ensures SCALAR_MIN <= ScalarBytes(r) <= SCALAR_MAX
  {
    IntLenBound(r.openCount);
    IntLenBound(r.clickCount);
  }

  /** The invariant of reachable records. Lists are only kept while the whole
      record fits, so with the shortest possible scalars they always do. */
  ghost predicate Budgeted(r: Rec) {
    && Encodable(r)
    && StaticBytes(r.header) <= STATIC_MAX
    && |r.openedAtList| <= MAX_OPEN_EVENTS && |r.clickEventIds| <= MAX_CLICK_EVENT_IDS
    && (ListBytes(r) == 0 || StaticBytes(r.header) + SCALAR_MIN + ListBytes(r) <= MAX_KV_RECORD_BYTES)
  }

  /** A budgeted record stays below 50,236 bytes, hence below the compaction
      threshold and the bucket's limit. */
  lemma BudgetBound(r: Rec)
    requires Budgeted(r)
    ensures Size(r) <= RECORD_BOUND < COMPACT_ABOVE_BYTES < MAX_RECORD_VALUE
  {
    ScalarRange(r);
  }

  lemma SameLists(r: Rec, s: Rec)
    requires Budgeted(r) && Encodable(s) && s.header == r.header
    requires s.openedAtList == r.openedAtList && s.clickEventIds == r.clickEventIds && s.clickList == r.clickList
    ensures Budgeted(s)
  {
    assert ListBytes(s) == ListBytes(r);
  }

  lemma FittingIsBudgeted(r: Rec)
    requires MarshalsWithin(r, MAX_KV_RECORD_BYTES) && StaticBytes(r.header) <= STATIC_MAX
    requires |r.openedAtList| <= MAX_OPEN_EVENTS && |r.clickEventIds| <= MAX_CLICK_EVENT_IDS
    ensures Budgeted(r)
  {
    ScalarRange(r);
  }

  /** On a budgeted record compaction touches nothing but an undercounted open_count. */
  lemma CompactIsCountOnly(r: Rec)
    requires Budgeted(r)
    ensures Compact(r) == RaiseCount(r) && Budgeted(Compact(r))
  {
    hide Size, StaticBytes, ScalarBytes;
    var a := RaiseCount(r);
    SameLists(r, a);
    BudgetBound(a);
  }

  lemma EffectKeepsBudget(r: Rec, ev: Event)
    requires Budgeted(r) && TimeOk(ev.at)
    ensures Budgeted(Effect(r, ev))
  {
    hide Size, StaticBytes, ScalarBytes, ListBytes;
    match ev.kind {
      case Open =>
        SameLists(r, CountOpen(r, ev.at));
        if KeepOpen(CountOpen(r, ev.at), ev) != CountOpen(r, ev.at) {
          FittingIsBudgeted(KeepOpen(CountOpen(r, ev.at), ev));
        }
      case Click =>
        SameLists(r, CountClick(r, ev.at));
        if KeepClick(CountClick(r, ev.at), ev) != CountClick(r, ev.at) {
          FittingIsBudgeted(KeepClick(CountClick(r, ev.at), ev));
        }
      case _ =>
        SameLists(r, Effect(r, ev));
    }
  }

  lemma ApplyKeepsBudget(r: Rec, ev: Event)
    requires Budgeted(r) && TimeOk(ev.at)
    ensures Budgeted(Apply(r, ev).rec)
  {
    hide Budgeted, Compact, Effect;
    CompactIsCountOnly(r);
    EffectKeepsBudget(Compact(r), ev);
  }

  lemma NewRecBudgeted(h: Header)
    requires HeaderOk(h)
    ensures Budgeted(NewRec(h))
  {
    HeaderBytes(h);
  }

  lemma {:induction false} FoldBudgeted(r: Rec, evs: seq<Event>)
    requires Budgeted(r) && EventsOk(evs)
    ensures Budgeted(Fold(r, evs))
  {
    hide Budgeted, Apply;
    if evs != [] {
      FoldBudgeted(r, evs[..|evs| - 1]);
      ApplyKeepsBudget(Fold(r, evs[..|evs| - 1]), evs[|evs| - 1]);
    }
  }

  /** Every record reachable from a freshly written one encodes, within 50,236
      bytes: below the compaction threshold and below the bucket's value limit. */
  lemma ReachableRecordsFit(h: Header, evs: seq<Event>)
    requires HeaderOk(h) && EventsOk(evs)
    ensures var r := Fold(NewRec(h), evs);
            Encodable(r) && Size(r) <= RECORD_BOUND < COMPACT_ABOVE_BYTES < MAX_RECORD_VALUE &&
            Compact(r).openedAtList == r.openedAtList
  {
    var r := Fold(NewRec(h), evs);
    NewRecBudgeted(h);
    FoldBudgeted(NewRec(h), evs);
    BudgetBound(r);
    CompactIsCountOnly(r);
  }

  // ---- stored ids ----

  predicate Stored(r: Rec, ev: Event) {
    match ev.kind
    case Open => OpenStored(r, ev.id)
    case Click => ClickStored(r, ev.id)
    case _ => false
  }

  lemma EffectExtendsLists(r: Rec, ev: Event)
    ensures var s := Effect(r, ev);
            r.openedAtList <= s.openedAtList && r.clickEventIds <= s.clickEventIds && r.clickList <= s.clickList
  {
    hide MarshalsWithin;
  }

  /** One event never drops a stored entry of a budgeted record. */
  lemma ApplyExtendsLists(r: Rec, ev: Event)
    requires Budgeted(r)
    ensures var s := Apply(r, ev).rec;
            r.openedAtList <= s.openedAtList && r.clickEventIds <= s.clickEventIds && r.clickList <= s.clickList
  {
    hide Budgeted, Compact, Effect;
    CompactIsCountOnly(r);
    EffectExtendsLists(Compact(r), ev);
  }

  lemma {:induction false} FoldExtendsLists(r: Rec, evs: seq<Event>)
    requires Budgeted(r) && EventsOk(evs)
    ensures var s := Fold(r, evs);
            r.openedAtList <= s.openedAtList && r.clickEventIds <= s.clickEventIds && r.clickList <= s.clickList
  {
    hide Budgeted, Apply;
    if evs != [] {
      var m := Fold(r, evs[..|evs| - 1]);
      FoldExtendsLists(r, evs[..|evs| - 1]);
      FoldBudgeted(r, evs[..|evs| - 1]);
      ApplyExtendsLists(m, evs[|evs| - 1]);
    }
  }

  /** An OPEN or CLICK id, once stored, is stored after every further event, and
      its redelivery is not applied again. */
  lemma StoredIdsStay(h: Header, before: seq<Event>, after: seq<Event>, ev: Event)
    requires HeaderOk(h) && EventsOk(before) && EventsOk(after)
    requires Stored(Fold(NewRec(h), before), ev)
    ensures var s := Fold(NewRec(h), before + after);
            Stored(s, ev) && !Apply(s, ev).applied
  {
    var r, s := Fold(NewRec(h), before), Fold(NewRec(h), before + after);
    StoredListsKept(h, before, after);
    assert Stored(s, ev) by {
      hide Fold;
      match ev.kind {
        case Open =>
          var i :| 0 <= i < |r.openedAtList| && r.openedAtList[i].id == ev.id;
          assert s.openedAtList[i] == r.openedAtList[i];
        case Click =>
          if ev.id !in r.clickEventIds {
            var i :| 0 <= i < |r.clickList| && r.clickList[i].id == ev.id;
            assert s.clickList[i] == r.clickList[i];
          } else {
            var i :| 0 <= i < |r.clickEventIds| && r.clickEventIds[i] == ev.id;
            assert s.clickEventIds[i] == r.clickEventIds[i];
          }
        case _ =>
      }
    }
    if ev.kind == Click {
      CompactIsCountOnly(s);
    }
  }

  lemma StoredListsKept(h: Header, before: seq<Event>, after: seq<Event>)
    requires HeaderOk(h) && EventsOk(before) && EventsOk(after)
    ensures var r, s := Fold(NewRec(h), before), Fold(NewRec(h), before + after);
            && Budgeted(s)
            && r.openedAtList <= s.openedAtList && r.clickEventIds <= s.clickEventIds && r.clickList <= s.clickList
  {
    hide Budgeted, Fold;
    NewRecBudgeted(h);
    FoldBudgeted(NewRec(h), before);
    FoldConcat(NewRec(h), before, after);
    FoldExtendsLists(Fold(NewRec(h), before), after);
    FoldBudgeted(Fold(NewRec(h), before), after);
  }
}
