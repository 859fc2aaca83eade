/** One recipient record under any number of concurrent engagement handlers, the
    blind Put of the send, queue redelivery and deletion. The environment is as
    hostile as for the group index; the send's Put takes effect at most once, at
    any time. A read may even report the key missing after it was created; such a
    handler is marked `misled`. */
module RecordRun {
  import opened Wire
  import opened KvBucket
  import opened Record
  import opened Budget
  import opened UpdateProgram

  datatype Write = Write(handler: nat, attempt: nat, ev: Event, rec: Rec, last: nat)
  datatype Writer = Put | Landed(write: Write)
  type Log = seq<Entry<Rec, Writer>>

  /** existed: the record was there when the message was received; misled: a read
      reported the record missing although it was there. */
  datatype Handler = Handler(message: nat, existed: bool, misled: bool, ev: Event, pc: Pc<Captured>)

  datatype State = State(header: Header, queue: map<nat, Message>, log: Log, landed: bool,
                         sent: set<Write>, handlers: map<nat, Handler>, deleted: set<nat>)

  datatype Step =
    | LandPut(revision: nat)
    | Receive(handler: nat, message: nat)
    | Get(handler: nat, reply: GetReply, now: int)
    | Land(write: Write, revision: nat)
    | Answer(handler: nat, answer: UpdateReply)
    | Delete(handler: nat)

  ghost predicate Init(s: State) {
    && HeaderOk(s.header)
    && s.log == [] && !s.landed && s.sent == {} && s.handlers == map[] && s.deleted == {}
  }

  ghost predicate ReadAllowed(s: State, reply: GetReply) {
    reply.Found? ==>
      exists j :: 0 <= j < |s.log| && s.log[j].value == reply.rec && s.log[j].revision == reply.revision
  }

  /** The write a handler has on the network while it is Updating. */
  ghost function WriteOf(h: nat, x: Handler): Write
    requires x.pc.Updating?
  {
    Write(h, x.pc.attempt, x.ev, x.pc.rec, x.pc.last)
  }

  ghost predicate TookEffect(log: Log, w: Write) {
    exists k :: 0 <= k < |log| && log[k].writer == Landed(w)
  }

  ghost function Received(s: State, m: nat): Handler
    requires m in s.queue
  {
    Handler(m, s.log != [], false, Event(Open, "", 0, ""),
            if s.queue[m].kind.None? then Returned(NoRecord, NOTHING) else Getting(0, NOTHING))
  }

  ghost predicate Next(s: State, t: State, step: Step) {
    match step
    case LandPut(revision) =>
      !s.landed && NewRevision(s.log, revision) &&
      t == s.(landed := true, log := s.log + [Entry(NewRec(s.header), revision, Put)])
    case Receive(h, m) =>
      h !in s.handlers && m in s.queue && t == s.(handlers := s.handlers[h := Received(s, m)])
    case Get(h, reply, now) =>
      && h in s.handlers && s.handlers[h].pc.Getting? && TimeOk(now) && ReadAllowed(s, reply)
      && s.handlers[h].message in s.queue && s.queue[s.handlers[h].message].kind.Some?
      && var ev := Resolve(s.queue[s.handlers[h].message], now);
         var x := s.handlers[h].(ev := ev, misled := reply.Missing? && s.log != [],
                                 pc := AfterGet(s.handlers[h].pc, EventCallback(ev), reply));
         t == s.(handlers := s.handlers[h := x], sent := s.sent + if x.pc.Updating? then {WriteOf(h, x)} else {})
    case Land(w, revision) =>
      w in s.sent && Matches(s.log, Some(w.last)) && NewRevision(s.log, revision) &&
      t == s.(log := s.log + [Entry(w.rec, revision, Landed(w))])
    case Answer(h, reply) =>
      && h in s.handlers && s.handlers[h].pc.Updating?
      && (reply == Acked ==> TookEffect(s.log, WriteOf(h, s.handlers[h])))
      && (reply == TooLarge ==> Size(s.handlers[h].pc.rec) > MAX_RECORD_VALUE)
      && t == s.(handlers := s.handlers[h := s.handlers[h].(pc := AfterUpdate(s.handlers[h].pc, reply))])
    case Delete(h) =>
      h in s.handlers && ReturnedNil(s.handlers[h].pc) &&
      t == s.(deleted := s.deleted + {s.handlers[h].message})
  }

  // ---- invariant ----

  /** Each revision after the first is its predecessor transformed by one event. */
  ghost predicate ChainedAt(log: Log, k: nat)
    requires 0 < k < |log|
  {
    var w := log[k].writer;
    && w.Landed? && TimeOk(w.write.ev.at) && w.write.last == log[k - 1].revision
    && log[k].value == Apply(log[k - 1].value, w.write.ev).rec
  }

  ghost predicate LogOk(h: Header, log: Log) {
    && Increasing(log)
    && (log != [] ==> log[0].value == NewRec(h) && log[0].writer == Put)
    && (forall k :: 0 < k < |log| ==> ChainedAt(log, k))
  }

  /** The event is the message's, with some usable time. */
  ghost predicate OfMessage(m: Message, ev: Event) {
    m.kind == Some(ev.kind) && m.id == ev.id && m.link == ev.link && TimeOk(ev.at)
  }

  ghost predicate BasedOn(log: Log, w: Write, j: nat)
    requires j < |log|
  {
    log[j].revision == w.last && w.rec == Apply(log[j].value, w.ev).rec
  }

  ghost predicate WriteOk(s: State, w: Write) {
    && w.handler in s.handlers && s.handlers[w.handler].message in s.queue
    && OfMessage(s.queue[s.handlers[w.handler].message], w.ev)
    && exists j :: 0 <= j < |s.log| && BasedOn(s.log, w, j)
  }

  /** The captured variables are those of applying ev to `before`. */
  ghost predicate CapFor(before: Rec, ev: Event, cap: Captured) {
    var a := Apply(before, ev);
    && cap.applied == a.applied && (a.applied ==> cap.at == ev.at)
    && (a.applied && ev.kind == Open ==> cap.openCount == a.rec.openCount)
    && (a.applied && ev.kind == Click ==> cap.clickCount == a.rec.clickCount)
  }

  /** Revision k is this handler's acknowledged write, and what it captured is from that very step. */
  ghost predicate CommittedAt(s: State, h: nat, k: nat)
    requires h in s.handlers && s.handlers[h].pc.Returned? && 0 < k < |s.log|
  {
    && s.log[k].writer.Landed? && s.log[k].writer.write.handler == h
    && s.handlers[h].message in s.queue
    && OfMessage(s.queue[s.handlers[h].message], s.log[k].writer.write.ev)
    && CapFor(s.log[k - 1].value, s.log[k].writer.write.ev, s.handlers[h].pc.cap)
  }

  ghost predicate HandlerOk(s: State, h: nat)
    requires h in s.handlers
  {
    var x := s.handlers[h];
    && x.message in s.queue
    && (x.existed ==> s.log != [])
    && (!x.pc.Returned? ==> s.queue[x.message].kind.Some?)
    && (x.misled ==> x.pc.Returned? && x.pc.result == NoRecord)
    && match x.pc
       case Getting(a, cap) => if a == 0 then !cap.applied else s.log != []
       case Updating(_, _, _, cap) =>
         && WriteOf(h, x) in s.sent
         && exists j :: 0 <= j < |s.log| && BasedOn(s.log, WriteOf(h, x), j) && CapFor(s.log[j].value, x.ev, cap)
       case Returned(result, cap) =>
         match result
         case Updated => exists k :: 0 < k < |s.log| && CommittedAt(s, h, k)
         case NoRecord => x.misled || (!cap.applied && (x.existed ==> s.queue[x.message].kind.None?))
         case RecordTooLarge => false
         case RecordUnencodable => false
         case UpdateFailed => true
  }

  ghost predicate SentAt(s: State, k: nat)
    requires 0 < k < |s.log|
  {
    s.log[k].writer.Landed? && s.log[k].writer.write in s.sent
  }

  ghost predicate ReturnedNil(pc: Pc<Captured>) {
    pc.Returned? && HandledOk(pc.result)
  }

  ghost predicate DeletedOk(s: State, m: nat) {
    exists h :: h in s.handlers && s.handlers[h].message == m && ReturnedNil(s.handlers[h].pc)
  }

  ghost predicate Inv(s: State) {
    && HeaderOk(s.header)
    && LogOk(s.header, s.log) && (s.landed <==> s.log != [])
    && (forall k :: 0 < k < |s.log| ==> SentAt(s, k))
    && (forall w :: w in s.sent ==> WriteOk(s, w))
    && (forall h :: h in s.handlers ==> HandlerOk(s, h))
    && (forall m :: m in s.deleted ==> DeletedOk(s, m))
  }

  // ---- the chain of revisions ----

  /** The event of revision k. */
  ghost function EventOf(log: Log, k: nat): Event
    requires 0 < k < |log| && log[k].writer.Landed?
  {
    log[k].writer.write.ev
  }

  /** The events that produced the revisions, in commit order. */
  ghost function Events(log: Log): seq<Event>
    requires forall k :: 0 < k < |log| ==> log[k].writer.Landed?
  {
    if |log| <= 1 then [] else Events(log[..|log| - 1]) + [EventOf(log, |log| - 1)]
  }

  lemma LogWriters(h: Header, log: Log)
    requires LogOk(h, log)
    ensures forall k :: 0 < k < |log| ==> log[k].writer.Landed?
  {
    forall k | 0 < k < |log| ensures log[k].writer.Landed? { assert ChainedAt(log, k); }
  }

  lemma LogPrefix(h: Header, log: Log, n: nat)
    requires LogOk(h, log) && n <= |log|
    ensures LogOk(h, log[..n])
  {
    var p := log[..n];
    forall k | 0 < k < |p| ensures ChainedAt(p, k) { assert ChainedAt(log, k); }
  }

  /** The newest revision is the fold of the committed events over the record the send wrote. */
  lemma {:induction false} ChainIsFold(h: Header, log: Log)
    requires LogOk(h, log) && log != []
    ensures (forall k :: 0 < k < |log| ==> log[k].writer.Landed?)
    ensures |Events(log)| == |log| - 1 && EventsOk(Events(log))
    ensures log[|log| - 1].value == Fold(NewRec(h), Events(log))
  {
    hide Apply;
    LogWriters(h, log);
    if |log| > 1 {
      var p, ev := log[..|log| - 1], EventOf(log, |log| - 1);
      LogPrefix(h, log, |log| - 1);
      ChainIsFold(h, p);
      assert ChainedAt(log, |log| - 1);
      FoldSnoc(NewRec(h), Events(p), ev);
    }
  }

  lemma RevisionBudgeted(h: Header, log: Log, k: nat)
    requires LogOk(h, log) && k < |log| && HeaderOk(h)
    ensures Budgeted(log[k].value)
  {
    hide Budgeted, Fold;
    var p := log[..k + 1];
    LogPrefix(h, log, k + 1);
    ChainIsFold(h, p);
    NewRecBudgeted(h);
    FoldBudgeted(NewRec(h), Events(p));
  }

  lemma AppliedBudgeted(h: Header, log: Log, j: nat, ev: Event)
    requires LogOk(h, log) && j < |log| && HeaderOk(h) && TimeOk(ev.at)
    ensures var r := Apply(log[j].value, ev).rec; Encodable(r) && Size(r) <= MAX_RECORD_VALUE
  {
    hide Apply;
    RevisionBudgeted(h, log, j);
    ApplyKeepsBudget(log[j].value, ev);
    BudgetBound(Apply(log[j].value, ev).rec);
  }

  // ---- preservation ----

  lemma InitInv(s: State)
    requires Init(s)
    ensures Inv(s)
  {
  }

  /** Extending the log by one revision keeps every write and handler fact. */
  lemma GrowKeeps(s: State, t: State)
    requires Inv(s) && s.log <= t.log && t == s.(log := t.log, landed := t.landed)
    ensures forall w :: w in t.sent ==> WriteOk(t, w)
    ensures forall h :: h in t.handlers ==> HandlerOk(t, h)
    ensures forall m :: m in t.deleted ==> DeletedOk(t, m)
  {
    hide LogOk, Apply;
    forall w | w in t.sent ensures WriteOk(t, w) {
      assert WriteOk(s, w);
      var j :| 0 <= j < |s.log| && BasedOn(s.log, w, j);
      assert BasedOn(t.log, w, j);
    }
    forall h | h in t.handlers ensures HandlerOk(t, h) { GrowHandler(s, t, h); }
    forall m | m in t.deleted ensures DeletedOk(t, m) { assert DeletedOk(s, m); }
  }

  lemma GrowHandler(s: State, t: State, h: nat)
    requires h in s.handlers && HandlerOk(s, h) && s.log <= t.log && t == s.(log := t.log, landed := t.landed)
    ensures HandlerOk(t, h)
  {
    hide Apply;
    var x := s.handlers[h];
    if x.pc.Updating? {
      var j :| 0 <= j < |s.log| && BasedOn(s.log, WriteOf(h, x), j) && CapFor(s.log[j].value, x.ev, x.pc.cap);
      assert BasedOn(t.log, WriteOf(h, x), j) && CapFor(t.log[j].value, x.ev, x.pc.cap);
    } else if x.pc.Returned? && x.pc.result == Updated {
      var k :| 0 < k < |s.log| && CommittedAt(s, h, k);
      assert CommittedAt(t, h, k);
    }
  }

  /** The blind Put finds the key empty: no update can have been committed before it. */
  lemma PutIsFirst(s: State, t: State, revision: nat)
    requires Inv(s) && Next(s, t, LandPut(revision))
    ensures s.log == []
  {
  }

  lemma LandPutInv(s: State, t: State, revision: nat)
    requires Inv(s) && Next(s, t, LandPut(revision))
    ensures Inv(t)
  {
    GrowKeeps(s, t);
  }

  lemma ReceiveInv(s: State, t: State, h: nat, m: nat)
    requires Inv(s) && Next(s, t, Receive(h, m))
    ensures Inv(t)
  {
    hide LogOk, Apply;
    forall k | 0 < k < |t.log| ensures SentAt(t, k) { assert SentAt(s, k); }
    forall w | w in t.sent ensures WriteOk(t, w) { assert WriteOk(s, w); }
    forall x | x in t.handlers ensures HandlerOk(t, x) { if x != h { FrameHandler(s, t, x); } }
    forall d | d in t.deleted ensures DeletedOk(t, d) { FrameDeleted(s, t, d); }
  }

  lemma FrameHandler(s: State, t: State, h: nat)
    requires h in s.handlers && HandlerOk(s, h) && h in t.handlers && t.handlers[h] == s.handlers[h]
    requires t.log == s.log && t.queue == s.queue && s.sent <= t.sent
    ensures HandlerOk(t, h)
  {
    hide Apply;
    if s.handlers[h].pc.Returned? && s.handlers[h].pc.result == Updated {
      var k :| 0 < k < |s.log| && CommittedAt(s, h, k);
      assert CommittedAt(t, h, k);
    }
  }

  lemma FrameDeleted(s: State, t: State, m: nat)
    requires DeletedOk(s, m)
    requires forall h :: h in s.handlers && s.handlers[h].pc.Returned? ==>
               h in t.handlers && t.handlers[h] == s.handlers[h]
    ensures DeletedOk(t, m)
  {
    var h :| h in s.handlers && s.handlers[h].message == m && ReturnedNil(s.handlers[h].pc);
    assert t.handlers[h] == s.handlers[h];
  }

  lemma GetHandlerOk(s: State, t: State, h: nat, reply: GetReply, now: int)
    requires Inv(s) && Next(s, t, Get(h, reply, now))
    ensures HandlerOk(t, h)
    ensures t.handlers[h].pc.Updating? ==> WriteOk(t, WriteOf(h, t.handlers[h]))
  {
    hide Apply, Encodable, Size, LogOk;
    assert HandlerOk(s, h);
    var x := t.handlers[h];
    if reply.Found? {
      var j :| 0 <= j < |s.log| && s.log[j].value == reply.rec && s.log[j].revision == reply.revision;
      AppliedBudgeted(s.header, s.log, j, x.ev);
      assert x.pc.Updating?;
      assert BasedOn(t.log, WriteOf(h, x), j) && CapFor(t.log[j].value, x.ev, x.pc.cap);
    }
  }

  lemma GetInv(s: State, t: State, h: nat, reply: GetReply, now: int)
    requires Inv(s) && Next(s, t, Get(h, reply, now))
    ensures Inv(t)
  {
    hide LogOk, AfterGet, EventCallback, Resolve;
    GetHandlerOk(s, t, h, reply, now);
    forall k | 0 < k < |t.log| ensures SentAt(t, k) { assert SentAt(s, k); }
    forall w | w in t.sent ensures WriteOk(t, w) {
      if w in s.sent { FrameWrite(s, t, w); }
    }
    forall x | x in t.handlers ensures HandlerOk(t, x) { if x != h { FrameHandler(s, t, x); } }
    forall d | d in t.deleted ensures DeletedOk(t, d) { FrameDeleted(s, t, d); }
  }

  lemma FrameWrite(s: State, t: State, w: Write)
    requires WriteOk(s, w) && t.log == s.log && t.queue == s.queue
    requires forall h :: h in s.handlers ==> h in t.handlers && t.handlers[h].message == s.handlers[h].message
    ensures WriteOk(t, w)
  {
  }

  lemma LandInv(s: State, t: State, w: Write, revision: nat)
    requires Inv(s) && Next(s, t, Land(w, revision))
    ensures Inv(t)
  {
    assert WriteOk(s, w);
    var j :| 0 <= j < |s.log| && BasedOn(s.log, w, j);
    LandChains(s.header, s.log, w, j, revision);
    hide LogOk;
    GrowKeeps(s, t);
    forall k | 0 < k < |t.log| ensures SentAt(t, k) { assert k < |s.log| ==> SentAt(s, k); }
  }

  /** An accepted write extends the chain: it was based on the newest revision. */
  lemma LandChains(h: Header, log: Log, w: Write, j: nat, revision: nat)
    requires LogOk(h, log) && j < |log| && BasedOn(log, w, j) && TimeOk(w.ev.at)
    requires Matches(log, Some(w.last)) && NewRevision(log, revision)
    ensures LogOk(h, log + [Entry(w.rec, revision, Landed(w))])
  {
    hide Apply;
    var e := Entry(w.rec, revision, Landed(w));
    MatchIsNewest(log, j);
    AppendIncreasing(log, e);
    forall k | 0 < k < |log + [e]| ensures ChainedAt(log + [e], k) {
      if k < |log| { assert ChainedAt(log, k); }
    }
  }

  lemma AnswerHandlerOk(s: State, t: State, h: nat, reply: UpdateReply)
    requires Inv(s) && Next(s, t, Answer(h, reply))
    ensures HandlerOk(t, h)
  {
    hide Apply, Size, Encodable, Budgeted;
    assert HandlerOk(s, h);
    var x := s.handlers[h];
    var w := WriteOf(h, x);
    var j :| 0 <= j < |s.log| && BasedOn(s.log, w, j) && CapFor(s.log[j].value, x.ev, x.pc.cap);
    assert WriteOk(s, w);
    AppliedBudgeted(s.header, s.log, j, x.ev);
    if reply == Acked {
      hide CapFor;
      var k := AckedRevision(s, w, j);
      assert CommittedAt(t, h, k);
    }
  }

  /** The revision an acknowledged write became directly follows the one it was based on. */
  lemma AckedRevision(s: State, w: Write, j: nat) returns (k: nat)
    requires Inv(s) && TookEffect(s.log, w) && j < |s.log| && BasedOn(s.log, w, j)
    ensures 0 < k < |s.log| && s.log[k].writer == Landed(w) && k - 1 == j
  {
    hide Apply;
    k :| 0 <= k < |s.log| && s.log[k].writer == Landed(w);
    assert ChainedAt(s.log, k);
    SameRevision(s.log, j, k - 1);
  }

  lemma SameRevision(log: Log, i: nat, j: nat)
    requires Increasing(log) && i < |log| && j < |log| && log[i].revision == log[j].revision
    ensures i == j
  {
  }

  lemma AnswerFrame(s: State, t: State, h: nat, reply: UpdateReply)
    requires Next(s, t, Answer(h, reply))
    ensures t == s.(handlers := t.handlers) && h in s.handlers && !s.handlers[h].pc.Returned?
    ensures t.handlers.Keys == s.handlers.Keys && t.handlers[h].message == s.handlers[h].message
    ensures forall x :: x in s.handlers && x != h ==> t.handlers[x] == s.handlers[x]
  {
    hide AfterUpdate, TookEffect;
  }

  lemma SameSent(s: State, t: State, k: nat)
    requires 0 < k < |s.log| && SentAt(s, k) && t.log == s.log && t.sent == s.sent
    ensures SentAt(t, k)
  {
  }

  lemma AnswerInv(s: State, t: State, h: nat, reply: UpdateReply)
    requires Inv(s) && Next(s, t, Answer(h, reply))
    ensures Inv(t)
  {
    AnswerHandlerOk(s, t, h, reply);
    AnswerFrame(s, t, h, reply);
    hide Next, LogOk, HandlerOk, WriteOk, DeletedOk, SentAt;
    forall k | 0 < k < |t.log| ensures SentAt(t, k) { SameSent(s, t, k); }
    forall w | w in t.sent ensures WriteOk(t, w) { FrameWrite(s, t, w); }
    forall x | x in t.handlers ensures HandlerOk(t, x) { if x != h { FrameHandler(s, t, x); } }
    forall d | d in t.deleted ensures DeletedOk(t, d) { FrameDeleted(s, t, d); }
  }

  lemma DeleteInv(s: State, t: State, h: nat)
    requires Inv(s) && Next(s, t, Delete(h))
    ensures Inv(t)
  {
    hide LogOk;
    forall k | 0 < k < |t.log| ensures SentAt(t, k) { assert SentAt(s, k); }
    forall w | w in t.sent ensures WriteOk(t, w) { FrameWrite(s, t, w); }
    forall x | x in t.handlers ensures HandlerOk(t, x) { FrameHandler(s, t, x); }
    forall d | d in t.deleted ensures DeletedOk(t, d) {
      if d in s.deleted { FrameDeleted(s, t, d); } else { assert t.handlers[h].message == d; }
    }
  }

  lemma NextInv(s: State, t: State, step: Step)
    requires Inv(s) && Next(s, t, step)
    ensures Inv(t)
  {
    hide Inv, Next;
    match step {
      case LandPut(revision) => LandPutInv(s, t, revision);
      case Receive(h, m) => ReceiveInv(s, t, h, m);
      case Get(h, reply, now) => GetInv(s, t, h, reply, now);
      case Land(w, revision) => LandInv(s, t, w, revision);
      case Answer(h, reply) => AnswerInv(s, t, h, reply);
      case Delete(h) => DeleteInv(s, t, h);
    }
  }

  // ---- whole runs ----

  ghost predicate Moves(s: State, t: State) {
    exists step :: Next(s, t, step)
  }

  ghost predicate IsRun(run: seq<State>) {
    run != [] && Init(run[0]) && forall i :: 0 <= i < |run| - 1 ==> Moves(run[i], run[i + 1])
  }

  lemma {:induction false} RunInv(run: seq<State>, i: nat)
    requires IsRun(run) && i < |run|
    ensures Inv(run[i])
  {
    hide Inv, Next, Init;
    if i == 0 {
      InitInv(run[0]);
    } else {
      RunInv(run, i - 1);
      assert Moves(run[i - 1], run[i - 1 + 1]);
      var step :| Next(run[i - 1], run[i], step);
      NextInv(run[i - 1], run[i], step);
    }
  }
}
