/** What every run of module RecordRun guarantees: the committed revisions are a
    sequential run of applyEngagementEvent, publications match commits one to one,
    and a message is deleted only once its event is in the record. */
module RecordGuarantees {
  import opened Wire
  import opened KvBucket
  import opened Record
  import opened Budget
  import opened Counting
  import opened EventMeaning
  import opened UpdateProgram
  import opened RecordRun

  // ---- refinement ----

  lemma StepExtends(s: State, t: State, step: Step)
    requires Next(s, t, step)
    ensures s.log <= t.log && t.header == s.header && t.queue == s.queue
  {
    hide AfterGet, AfterUpdate;
  }

  lemma RunMoves(run: seq<State>, j: nat)
    requires IsRun(run) && 0 < j < |run|
    ensures Moves(run[j - 1], run[j])
  {
    assert Moves(run[j - 1], run[j - 1 + 1]);
  }

  lemma {:induction false} RunExtends(run: seq<State>, i: nat, j: nat)
    requires IsRun(run) && i <= j < |run|
    ensures run[i].log <= run[j].log && run[j].header == run[i].header
    ensures run[j].queue == run[i].queue
  {
    if i < j {
      hide Next, Init, IsRun;
      RunExtends(run, i, j - 1);
      RunMoves(run, j);
      var a, b := run[j - 1], run[j];
      var step :| Next(a, b, step);
      StepExtends(a, b, step);
    }
  }

  /** Concurrent handlers refine a sequential run: revision k is the fold of the first
      k committed events over the record the send wrote, each event is that of a
      received message, and a committed revision is never replaced, the send's blind
      Put included. */
  lemma RevisionsAreSequential(run: seq<State>, i: nat, j: nat, k: nat)
    requires IsRun(run) && i <= j < |run| && k < |run[i].log|
    ensures run[i].log <= run[j].log
    ensures forall n :: 0 < n <= k ==> run[i].log[n].writer.Landed?
    ensures run[i].log[k].value == Fold(NewRec(run[0].header), Events(run[i].log[..k + 1]))
    ensures k > 0 ==> var w := run[i].log[k].writer.write;
              && w.handler in run[i].handlers && run[i].handlers[w.handler].message in run[i].queue
              && OfMessage(run[i].queue[run[i].handlers[w.handler].message], w.ev)
  {
    var s := run[i];
    RunInv(run, i);
    RunExtends(run, i, j);
    RunExtends(run, 0, i);
    hide IsRun, Fold, Events, Apply;
    LogPrefix(s.header, s.log, k + 1);
    ChainIsFold(s.header, s.log[..k + 1]);
    LogWriters(s.header, s.log);
    if k > 0 {
      assert SentAt(s, k);
      assert WriteOk(s, s.log[k].writer.write);
    }
  }

  // ---- one step of the chain ----

  /** Flags are never cleared, and a single-fire event applies only while its flag is clear. */
  lemma ApplyFlags(r: Rec, ev: Event)
    ensures var a := Apply(r, ev);
            && (r.delivered ==> a.rec.delivered) && (r.failed ==> a.rec.failed)
            && (ev.kind == Delivery ==> a.rec.delivered && (a.applied <==> !r.delivered))
            && (ev.kind == Bounce || ev.kind == Complaint ==> a.rec.failed && (a.applied <==> !r.failed))
            && (a.rec.delivered && !r.delivered ==> ev.kind == Delivery && a.applied)
            && (a.rec.failed && !r.failed ==> (ev.kind == Bounce || ev.kind == Complaint) && a.applied)
  {
    hide Compact, KeepOpen, KeepClick;
    CompactFrame(r);
    FlagsFramed(Compact(r), ev);
  }

  lemma {:induction false} FlagsStay(h: Header, log: Log, i: nat, j: nat)
    requires LogOk(h, log) && i <= j < |log|
    ensures log[i].value.delivered ==> log[j].value.delivered
    ensures log[i].value.failed ==> log[j].value.failed
  {
    hide Apply;
    if i < j {
      FlagsStay(h, log, i, j - 1);
      assert ChainedAt(log, j);
      ApplyFlags(log[j - 1].value, EventOf(log, j));
    }
  }

  /** The event of revision k changed the record. */
  ghost predicate AppliedAt(log: Log, k: nat) {
    0 < k < |log| && log[k].writer.Landed? && Apply(log[k - 1].value, EventOf(log, k)).applied
  }

  /** In a run shorter than 2^63 revisions the counters never wrap. */
  lemma RevisionTally(h: Header, log: Log, k: nat)
    requires LogOk(h, log) && HeaderOk(h) && k < |log| <= INT64_MAX
    ensures Covered(log[k].value)
    ensures log[k].value.openCount <= k && log[k].value.clickCount <= k
  {
    hide Fold, Counted, Budgeted, Apply;
    var p := log[..k + 1];
    LogPrefix(h, log, k + 1);
    ChainIsFold(h, p);
    var evs := Events(p);
    FoldTally(h, evs);
    DeliveriesAtMost(evs, Open);
    DeliveriesAtMost(evs, Click);
  }

  lemma ApplyCounts(r: Rec, ev: Event)
    requires Covered(r) && r.openCount < INT64_MAX && r.clickCount < INT64_MAX
    ensures var a := Apply(r, ev);
            && a.rec.openCount == r.openCount + (if ev.kind == Open && a.applied then 1 else 0)
            && a.rec.clickCount == r.clickCount + (if ev.kind == Click && a.applied then 1 else 0)
  {
    hide Covered, Effect, Apply;
    ApplyCovered(r, ev);
    EffectFrame(r, ev);
    if ev.kind == Open { OpenEffect(r, ev); }
    if ev.kind == Click { ClickEffect(r, ev); }
  }

  /** Counters never decrease, and grow at every counted revision. */
  lemma {:induction false} CountsGrow(h: Header, log: Log, i: nat, j: nat)
    requires LogOk(h, log) && HeaderOk(h) && i < j < |log| <= INT64_MAX
    ensures log[i].value.openCount <= log[j].value.openCount && log[i].value.clickCount <= log[j].value.clickCount
    ensures AppliedAt(log, j) && EventOf(log, j).kind == Open ==> log[i].value.openCount < log[j].value.openCount
    ensures AppliedAt(log, j) && EventOf(log, j).kind == Click ==> log[i].value.clickCount < log[j].value.clickCount
    decreases j
  {
    hide Apply, Covered;
    if i < j - 1 { CountsGrow(h, log, i, j - 1); }
    assert ChainedAt(log, j);
    RevisionTally(h, log, j - 1);
    ApplyCounts(log[j - 1].value, EventOf(log, j));
  }

  // ---- publications ----

  ghost predicate Published(s: State, h: nat) {
    h in s.handlers && s.handlers[h].pc.Returned? && Publishes(s.handlers[h].pc.result, s.handlers[h].pc.cap)
  }

  ghost function KindOf(s: State, h: nat): Option<Kind>
    requires h in s.handlers
  {
    var m := s.handlers[h].message;
    if m in s.queue then s.queue[m].kind else None
  }

  /** A publication whose write was acknowledged. */
  ghost predicate PublishedAcked(s: State, h: nat) {
    Published(s, h) && s.handlers[h].pc.result == Updated
  }

  /** Only a misled handler publishes without an acknowledged write: it had written once,
      was refused, and its retry was told that the record is missing. */
  lemma AckedUnlessMisled(run: seq<State>, n: nat, h: nat)
    requires IsRun(run) && n < |run| && Published(run[n], h)
    ensures PublishedAcked(run[n], h) <==> !run[n].handlers[h].misled
  {
    hide IsRun;
    RunInv(run, n);
    assert HandlerOk(run[n], h);
  }

  /** The payload a publishing handler sends. */
  ghost function Payload(s: State, h: nat): Publication
    requires h in s.handlers && s.handlers[h].message in s.queue && s.handlers[h].pc.Returned?
    requires s.queue[s.handlers[h].message].kind.Some?
  {
    PublicationOf(s.header.emailId, s.queue[s.handlers[h].message], s.handlers[h].pc.cap)
  }

  lemma PublisherReadMessage(s: State, h: nat)
    requires Inv(s) && PublishedAcked(s, h)
    ensures s.handlers[h].message in s.queue && s.queue[s.handlers[h].message].kind.Some?
  {
    assert HandlerOk(s, h);
    var k :| 0 < k < |s.log| && CommittedAt(s, h, k);
  }

  /** A handler publishes only what it committed: its own acknowledged revision changed
      the record, and its payload reports that revision, with its count or time. */
  lemma PublishedIsCommitted(s: State, h: nat) returns (k: nat)
    requires Inv(s) && PublishedAcked(s, h)
    ensures 0 < k < |s.log| && CommittedAt(s, h, k) && AppliedAt(s.log, k)
    ensures s.handlers[h].message in s.queue && s.queue[s.handlers[h].message].kind.Some?
    ensures Reports(Payload(s, h), s.header.emailId, s.queue[s.handlers[h].message],
                    s.log[k].value, EventOf(s.log, k).at)
  {
    hide Apply;
    PublisherReadMessage(s, h);
    assert HandlerOk(s, h);
    k :| 0 < k < |s.log| && CommittedAt(s, h, k);
    assert ChainedAt(s.log, k);
    AppliedShows(s.log[k - 1].value, EventOf(s.log, k));
  }

  /** Of two revisions only one can have set a flag. */
  lemma FlagSetOnce(h: Header, log: Log, i: nat, j: nat)
    requires LogOk(h, log) && i < j < |log|
    ensures AppliedAt(log, i) && AppliedAt(log, j) ==>
              && !(EventOf(log, i).kind == Delivery && EventOf(log, j).kind == Delivery)
              && !(EventOf(log, i).kind in {Bounce, Complaint} && EventOf(log, j).kind in {Bounce, Complaint})
  {
    hide Apply;
    if AppliedAt(log, i) {
      assert ChainedAt(log, i);
      ApplyFlags(log[i - 1].value, EventOf(log, i));
      FlagsStay(h, log, i, j - 1);
      assert ChainedAt(log, j);
      ApplyFlags(log[j - 1].value, EventOf(log, j));
    }
  }

  /** Two handlers never share a revision. */
  lemma CommitsAreDistinct(s: State, g: nat, h: nat, i: nat, j: nat)
    requires g in s.handlers && s.handlers[g].pc.Returned? && 0 < i < |s.log| && CommittedAt(s, g, i)
    requires h in s.handlers && s.handlers[h].pc.Returned? && 0 < j < |s.log| && CommittedAt(s, h, j)
    ensures g != h ==> i != j
  {
  }

  /** Across all replicas, retries and redeliveries at most one delivered event, and at
      most one failed event, bounce and complaint together, is published. */
  lemma FlagsPublishedOnce(run: seq<State>, n: nat, g: nat, h: nat)
    requires IsRun(run) && n < |run|
    requires PublishedAcked(run[n], g) && PublishedAcked(run[n], h) && g != h
    ensures var s := run[n];
            && s.handlers[g].message in s.queue && s.queue[s.handlers[g].message].kind.Some?
            && s.handlers[h].message in s.queue && s.queue[s.handlers[h].message].kind.Some?
            && !(Payload(s, g).Delivered? && Payload(s, h).Delivered?)
            && !(Payload(s, g).SendFailed? && Payload(s, h).SendFailed?)
  {
    RunInv(run, n);
    hide IsRun, Apply, Inv, PublicationOf;
    var s := run[n];
    var i := PublishedIsCommitted(s, g);
    var j := PublishedIsCommitted(s, h);
    CommitsAreDistinct(s, g, h, i, j);
    assert LogOk(s.header, s.log) by { InvLog(s); }
    if i < j { FlagSetOnce(s.header, s.log, i, j); } else { FlagSetOnce(s.header, s.log, j, i); }
  }

  lemma InvLog(s: State)
    requires Inv(s)
    ensures LogOk(s.header, s.log) && HeaderOk(s.header)
  {
  }

  /** The open counts published for one email are pairwise distinct, and so are the click counts. */
  lemma PublishedCountsDistinct(run: seq<State>, n: nat, g: nat, h: nat)
    requires IsRun(run) && n < |run| && |run[n].log| <= INT64_MAX
    requires PublishedAcked(run[n], g) && PublishedAcked(run[n], h) && g != h
    ensures var s := run[n];
            && s.handlers[g].message in s.queue && s.queue[s.handlers[g].message].kind.Some?
            && s.handlers[h].message in s.queue && s.queue[s.handlers[h].message].kind.Some?
            && var p, q := Payload(s, g), Payload(s, h);
               && (p.Opened? && q.Opened? ==> p.openCount != q.openCount)
               && (p.LinkClicked? && q.LinkClicked? ==> p.clickCount != q.clickCount)
  {
    RunInv(run, n);
    hide IsRun, Apply, Inv, PublicationOf, LogOk;
    var s := run[n];
    var i := PublishedIsCommitted(s, g);
    var j := PublishedIsCommitted(s, h);
    CommitsAreDistinct(s, g, h, i, j);
    InvLog(s);
    if i < j { CountsGrow(s.header, s.log, i, j); } else { CountsGrow(s.header, s.log, j, i); }
  }

  // ---- no event is lost ----

  /** Two events with the same mark on the record. */
  ghost predicate SameMark(a: Event, kind: Kind, id: string) {
    match kind
    case Open => a.kind == Open && a.id == id
    case Click => a.kind == Click && a.id == id
    case Delivery => a.kind == Delivery
    case Bounce => a.kind == Bounce || a.kind == Complaint
    case Complaint => a.kind == Bounce || a.kind == Complaint
  }

  /** Some committed revision counted the event or set its flag. */
  ghost predicate Reflected(log: Log, kind: Kind, id: string) {
    exists k :: AppliedAt(log, k) && SameMark(EventOf(log, k), kind, id)
  }

  /** An id in the lists after an event was there before, or is this event's, counted. */
  lemma StoredSource(r: Rec, ev: Event, kind: Kind, id: string)
    requires Budgeted(r)
    ensures NoOp(Apply(r, ev).rec, Event(kind, id, 0, "")) ==>
              NoOp(r, Event(kind, id, 0, "")) || (Apply(r, ev).applied && SameMark(ev, kind, id))
  {
    if NoOp(Apply(r, ev).rec, Event(kind, id, 0, "")) {
      if kind == Open || kind == Click {
        hide Budgeted, Effect, Compact, Apply;
        var c := Compact(r);
        CompactIsCountOnly(r);
        ApplyUnfold(r, ev);
        EffectLists(c, ev);
        if kind == Open { OpenSource(c, ev, id); } else { ClickSource(c, ev, id); }
      } else {
        hide Budgeted;
        ApplyFlags(r, ev);
      }
    }
  }

  lemma ApplyUnfold(r: Rec, ev: Event)
    ensures var c := Compact(r);
            Apply(r, ev) == Applied(r, false) || Apply(r, ev) == Applied(c, false) ||
            Apply(r, ev) == Applied(Effect(c, ev), true)
  {
    hide Compact, Effect;
  }

  lemma EffectLists(r: Rec, ev: Event)
    ensures var s := Effect(r, ev);
            && (s.openedAtList == r.openedAtList ||
                   (ev.kind == Open && s.openedAtList == r.openedAtList + [OpenEvent(ev.id, ev.at)]))
            && (s.clickEventIds == r.clickEventIds ||
                   (ev.kind == Click && s.clickEventIds == r.clickEventIds + [ev.id]))
            && (s.clickList == r.clickList ||
                   (ev.kind == Click && s.clickList == r.clickList + [ClickEvent(ev.id, ev.link, ev.at)]))
  {
    hide KeepOpen, KeepClick;
    match ev.kind {
      case Open => KeepOpenLists(CountOpen(r, ev.at), ev);
      case Click => KeepClickLists(CountClick(r, ev.at), ev);
      case _ =>
    }
  }

  lemma KeepOpenLists(r: Rec, ev: Event)
    ensures var s := KeepOpen(r, ev);
            s.openedAtList == r.openedAtList || s.openedAtList == r.openedAtList + [OpenEvent(ev.id, ev.at)]
    ensures KeepOpen(r, ev).clickEventIds == r.clickEventIds && KeepOpen(r, ev).clickList == r.clickList
  {
    hide MarshalsWithin;
  }

  lemma KeepClickLists(r: Rec, ev: Event)
    ensures var s := KeepClick(r, ev);
            && s.openedAtList == r.openedAtList
            && (s.clickEventIds == r.clickEventIds || s.clickEventIds == r.clickEventIds + [ev.id])
            && (s.clickList == r.clickList || s.clickList == r.clickList + [ClickEvent(ev.id, ev.link, ev.at)])
  {
    hide MarshalsWithin;
  }

  lemma OpenSource(c: Rec, ev: Event, id: string)
    ensures OpenStored(Effect(c, ev), id) ==> OpenStored(c, id) || (ev.kind == Open && ev.id == id)
  {
    hide Effect;
    EffectLists(c, ev);
    var s := Effect(c, ev);
    if OpenStored(s, id) {
      var i :| 0 <= i < |s.openedAtList| && s.openedAtList[i].id == id;
      if i < |c.openedAtList| { assert c.openedAtList[i].id == id; }
    }
  }

  lemma ClickSource(c: Rec, ev: Event, id: string)
    ensures ClickStored(Effect(c, ev), id) ==> ClickStored(c, id) || (ev.kind == Click && ev.id == id)
  {
    hide Effect;
    EffectLists(c, ev);
    var s := Effect(c, ev);
    if ClickStored(s, id) && id !in s.clickEventIds {
      var i :| 0 <= i < |s.clickList| && s.clickList[i].id == id;
      if i < |c.clickList| { assert c.clickList[i].id == id; }
    }
  }

  /** Whatever a revision already shows was committed at or before it. */
  lemma {:induction false} ShownWasCommitted(h: Header, log: Log, k: nat, kind: Kind, id: string)
    requires LogOk(h, log) && HeaderOk(h) && k < |log|
    requires NoOp(log[k].value, Event(kind, id, 0, ""))
    ensures Reflected(log, kind, id)
  {
    hide Apply, Budgeted;
    if k > 0 {
      assert ChainedAt(log, k);
      RevisionBudgeted(h, log, k - 1);
      StoredSource(log[k - 1].value, EventOf(log, k), kind, id);
      if NoOp(log[k - 1].value, Event(kind, id, 0, "")) {
        ShownWasCommitted(h, log, k - 1, kind, id);
      } else {
        assert AppliedAt(log, k);
      }
    }
  }

  lemma NotAppliedIsShown(r: Rec, ev: Event)
    requires Budgeted(r) && !Apply(r, ev).applied
    ensures NoOp(r, Event(ev.kind, ev.id, 0, ""))
  {
    hide Budgeted, Effect, Compact;
    CompactIsCountOnly(r);
  }

  /** The event of an acknowledged handler is in the record, by its own commit or an earlier one. */
  lemma CommittedIsReflected(s: State, h: nat, k: nat)
    requires Inv(s) && h in s.handlers && s.handlers[h].pc.Returned? && 0 < k < |s.log| && CommittedAt(s, h, k)
    ensures var m := s.queue[s.handlers[h].message]; Reflected(s.log, m.kind.value, m.id)
  {
    hide Apply, Budgeted;
    var ev := EventOf(s.log, k);
    assert ChainedAt(s.log, k);
    if Apply(s.log[k - 1].value, ev).applied {
      assert AppliedAt(s.log, k);
    } else {
      RevisionBudgeted(s.header, s.log, k - 1);
      NotAppliedIsShown(s.log[k - 1].value, ev);
      ShownWasCommitted(s.header, s.log, k - 1, ev.kind, ev.id);
    }
  }

  /** The handler was told that there is no record: it was received before the record
      existed, or a read misled it. */
  ghost predicate FoundNoRecord(x: Handler) {
    x.pc.Returned? && x.pc.result == NoRecord && (x.misled || !x.existed)
  }

  /** A handler that read its event and returned nil committed it, or found it committed,
      except exactly if it found no record. */
  lemma NilMeansReflected(run: seq<State>, n: nat, h: nat)
    requires IsRun(run) && n < |run| && h in run[n].handlers && ReturnedNil(run[n].handlers[h].pc)
    requires KindOf(run[n], h).Some?
    ensures run[n].handlers[h].message in run[n].queue
    ensures run[n].handlers[h].pc.result == Updated <==> !FoundNoRecord(run[n].handlers[h])
    ensures !FoundNoRecord(run[n].handlers[h]) ==>
              var m := run[n].queue[run[n].handlers[h].message]; Reflected(run[n].log, m.kind.value, m.id)
  {
    hide IsRun, Apply;
    var s := run[n];
    RunInv(run, n);
    assert HandlerOk(s, h);
    if s.handlers[h].pc.result == Updated {
      var k :| 0 < k < |s.log| && CommittedAt(s, h, k);
      CommittedIsReflected(s, h, k);
    }
  }

  /** No event is lost: a deleted message was handled either with its event committed,
      or by a handler that found no record, or is one Handle drops unread. No handler
      ends in a size or encoding error, so none is dropped for that either. */
  lemma NoEventIsLost(run: seq<State>, n: nat, m: nat)
    requires IsRun(run) && n < |run| && m in run[n].deleted
    ensures m in run[n].queue
    ensures var msg := run[n].queue[m];
            || msg.kind.None?
            || Reflected(run[n].log, msg.kind.value, msg.id)
            || exists h :: h in run[n].handlers && run[n].handlers[h].message == m && FoundNoRecord(run[n].handlers[h])
  {
    hide IsRun, Reflected, HandledOk;
    var s := run[n];
    RunInv(run, n);
    assert DeletedOk(s, m);
    var h :| h in s.handlers && s.handlers[h].message == m && ReturnedNil(s.handlers[h].pc);
    assert HandlerOk(s, h);
    if s.queue[m].kind.Some? { NilMeansReflected(run, n, h); }
  }

  /** Records written by this service are never dropped as too large or unencodable. */
  lemma NoDeterministicDrop(run: seq<State>, n: nat, h: nat)
    requires IsRun(run) && n < |run| && h in run[n].handlers && run[n].handlers[h].pc.Returned?
    ensures run[n].handlers[h].pc.result !in {RecordTooLarge, RecordUnencodable}
  {
    hide IsRun;
    RunInv(run, n);
    assert HandlerOk(run[n], h);
  }

  // ---- reads that report a created key missing ----

  /** A run in which the retry's read misses the record: the handler publishes a
      delivery that no revision holds, and its message is deleted. */
  lemma StaleAbsenceLosesEvent(h: Header, now: int) returns (run: seq<State>)
    requires HeaderOk(h) && TimeOk(now)
    ensures IsRun(run)
    ensures var s := run[|run| - 1];
            && Published(s, 0) && KindOf(s, 0) == Some(Delivery) && s.handlers[0].existed && s.handlers[0].misled
            && 0 in s.deleted && !Reflected(s.log, Delivery, "")
  {
    hide Apply, HeaderOk, Next;
    var msg := Message(Some(Delivery), "", Unusable, "");
    var ev := Resolve(msg, now);
    var s0 := State(h, map[0 := msg], [], false, {}, map[], {});
    var s1 := s0.(log := [Entry(NewRec(h), 1, Put)], landed := true);
    var s2 := s1.(handlers := s1.handlers[0 := Received(s1, 0)]);
    var s3 := AfterFirstGet(s2, ev);
    var x3 := s3.handlers[0];
    var s4 := s3.(handlers := s3.handlers[0 := x3.(pc := AfterUpdate(x3.pc, Refused))]);
    var x4 := s4.handlers[0];
    var s5 := s4.(handlers := s4.handlers[0 := x4.(ev := ev, misled := true, pc := Returned(NoRecord, x4.pc.cap))]);
    var s6 := s5.(deleted := s5.deleted + {0});
    FirstGetStep(s2, s3, h, msg, now);
    run := [s0, s1, s2, s3, s4, s5, s6];
    PutStep(s0, s1);
    ReceiveStep(s1, s2);
    RefusedStep(s3, s4);
    MissingStep(s4, s5, now);
    DeleteStep(s5, s6);
  }

  /** A run in which already the first read misses the record: for any event, nothing is
      published or committed, and the message is deleted. */
  lemma FirstAbsenceLosesEvent(h: Header, msg: Message, now: int) returns (run: seq<State>)
    requires HeaderOk(h) && TimeOk(now) && msg.kind.Some?
    ensures IsRun(run)
    ensures var s := run[|run| - 1];
            && s.queue == map[0 := msg] && 0 in s.deleted
            && 0 in s.handlers && s.handlers[0].existed && s.handlers[0].misled
            && !Published(s, 0) && !Reflected(s.log, msg.kind.value, msg.id)
  {
    hide Apply, HeaderOk, Next;
    var s0 := State(h, map[0 := msg], [], false, {}, map[], {});
    var s1 := s0.(log := [Entry(NewRec(h), 1, Put)], landed := true);
    var s2 := s1.(handlers := s1.handlers[0 := Received(s1, 0)]);
    var x2 := s2.handlers[0];
    var missed := x2.(ev := Resolve(msg, now), misled := true, pc := Returned(NoRecord, NOTHING));
    var s3 := s2.(handlers := s2.handlers[0 := missed]);
    var s4 := s3.(deleted := s3.deleted + {0});
    run := [s0, s1, s2, s3, s4];
    PutStep(s0, s1);
    ReceiveStep(s1, s2);
    MissingStep(s2, s3, now);
    DeleteStep(s3, s4);
  }

  /** The handler of a delivery after it read the fresh record. */
  ghost function AfterFirstGet(s: State, ev: Event): State {
    var cap := Captured(true, ev.at, 0, 0);
    var rec := NewRec(s.header).(delivered := true, deliveredAt := Some(ev.at));
    var x := Handler(0, true, false, ev, Updating(0, rec, 1, cap));
    s.(handlers := s.handlers[0 := x], sent := s.sent + {WriteOf(0, x)})
  }

  lemma FirstGetStep(s: State, t: State, h: Header, msg: Message, now: int)
    requires HeaderOk(h) && TimeOk(now) && msg == Message(Some(Delivery), "", Unusable, "")
    requires s.header == h && s.queue == map[0 := msg] && s.sent == {}
    requires s.log == [Entry(NewRec(h), 1, Put)]
    requires s.handlers == map[0 := Handler(0, true, false, Event(Open, "", 0, ""), Getting(0, NOTHING))]
    requires t == AfterFirstGet(s, Resolve(msg, now))
    ensures Moves(s, t)
  {
    var ev := Resolve(msg, now);
    assert s.log[0].value == NewRec(h) && s.log[0].revision == 1;
    var a := Apply(NewRec(h), ev);
    assert a == Applied(NewRec(h).(delivered := true, deliveredAt := Some(ev.at)), true);
    assert Encodable(a.rec);
    assert AfterGet(Getting(0, NOTHING), EventCallback(ev), GetReply.Found(NewRec(h), 1)) == t.handlers[0].pc;
    assert Next(s, t, Get(0, GetReply.Found(NewRec(h), 1), now));
  }

  lemma RefusedStep(s: State, t: State)
    requires 0 in s.handlers && s.handlers[0].pc.Updating?
    requires t == s.(handlers := s.handlers[0 := s.handlers[0].(pc := AfterUpdate(s.handlers[0].pc, Refused))])
    ensures Moves(s, t)
  {
    assert Next(s, t, Answer(0, Refused));
  }

  lemma MissingStep(s: State, t: State, now: int)
    requires s.log != [] && TimeOk(now) && 0 in s.handlers && s.handlers[0].pc.Getting?
    requires s.handlers[0].message in s.queue && s.queue[s.handlers[0].message].kind.Some?
    requires var x := s.handlers[0];
             var ev := Resolve(s.queue[x.message], now);
             t == s.(handlers := s.handlers[0 := x.(ev := ev, misled := true, pc := Returned(NoRecord, x.pc.cap))])
    ensures Moves(s, t)
  {
    assert t.sent == s.sent + {};
    assert Next(s, t, Get(0, GetReply.Missing, now));
  }

  lemma PutStep(s: State, t: State)
    requires !s.landed && s.log == []
    requires t == s.(landed := true, log := [Entry(NewRec(s.header), 1, Put)])
    ensures Moves(s, t)
  {
    assert s.log + [Entry(NewRec(s.header), 1, Put)] == t.log;
    assert Next(s, t, LandPut(1));
  }

  lemma ReceiveStep(s: State, t: State)
    requires 0 !in s.handlers && 0 in s.queue && t == s.(handlers := s.handlers[0 := Received(s, 0)])
    ensures Moves(s, t)
  {
    assert Next(s, t, Receive(0, 0));
  }

  lemma DeleteStep(s: State, t: State)
    requires 0 in s.handlers && ReturnedNil(s.handlers[0].pc)
    requires t == s.(deleted := s.deleted + {s.handlers[0].message})
    ensures Moves(s, t)
  {
    assert Next(s, t, Delete(0));
  }
}
