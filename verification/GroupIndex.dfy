/** The group index under any number of concurrent AppendToGroup calls.
    Each call is the little program Begin / AfterRead / AfterWrite, which is what
    KvStore's imperative AppendToGroup executes. Around the calls the environment
    is hostile: a read may return any earlier state of the key or fail, a write
    once sent may take effect at any later time, or again, or never, whatever was
    reported about it. It only keeps to revisions, and acknowledges a write only
    if that very write took effect. */
module GroupIndex {
  import opened Wire
  import opened KvBucket
  import opened JsonText

  const MAX_GROUP_EMAILS := 10_000

  // ---- the program of one call ----

  datatype ReadReply = Found(ids: seq<string>, revision: nat) | Missing | ReadFailed
  datatype WriteReply = Acked | KeyExists | WriteFailed
  datatype Outcome = Appended | GroupFull | Failed

  datatype Pc =
    | Reading(attempt: nat)
    | Writing(attempt: nat, ids: seq<string>, last: Option<nat>)
    | Rechecking
    | Done(outcome: Outcome)

  function Begin(group: string, id: string): Pc {
    if ValidKey(group) && IsUuid(id) then Reading(0) else Done(Failed)
  }

  function AfterRead(pc: Pc, id: string, reply: ReadReply): Pc
    requires pc.Reading? || pc.Rechecking?
  {
    if pc.Reading? then
      if reply.ReadFailed? then Done(Failed)
      else
        var ids := if reply.Found? then reply.ids else [];
        if pc.attempt > 0 && id in ids then Done(Appended)
        else if |ids| >= MAX_GROUP_EMAILS then Done(GroupFull)
        else Writing(pc.attempt, ids + [id], if reply.Found? then Some(reply.revision) else None)
    else
      if !reply.Found? then Done(Failed)
      else if id in reply.ids then Done(Appended)
      else if |reply.ids| >= MAX_GROUP_EMAILS then Done(GroupFull)
      else Done(Failed)
  }

  function AfterWrite(pc: Pc, reply: WriteReply): Pc
    requires pc.Writing?
  {
    if reply == Acked then Done(Appended)
    else if pc.last.None? && reply != KeyExists then Done(Failed)
    else if pc.attempt == 0 then Reading(1)
    else Rechecking
  }

  // ---- the concurrent system ----

  /** Who wrote an entry: nobody in this run, or an attempt of the call for an email. */
  datatype Writer = Seed | By(email: string, attempt: nat)
  type Log = seq<Entry<seq<string>, Writer>>

  datatype Write = Write(group: string, email: string, attempt: nat, ids: seq<string>, last: Option<nat>)
  datatype Call = Call(group: string, pc: Pc)
  datatype State = State(logs: map<string, Log>, sent: set<Write>, calls: map<string, Call>)

  ghost function LogOf(s: State, g: string): Log {
    if g in s.logs then s.logs[g] else []
  }

  /** The index value of a group now; empty when the key does not exist. */
  ghost function Current(s: State, g: string): seq<string> {
    var log := LogOf(s, g);
    if log == [] then [] else log[|log| - 1].value
  }

  ghost predicate Exists(s: State, g: string) {
    LogOf(s, g) != []
  }

  /** Groups may already hold any list of ids when the run begins. */
  ghost predicate Init(s: State) {
    && s.sent == {} && s.calls == map[]
    && forall g :: g in s.logs ==> |s.logs[g]| == 1 && s.logs[g][0].writer == Seed
  }

  datatype Step =
    | Start(id: string, group: string)
    | Read(id: string, reply: ReadReply)
    | Land(write: Write, revision: nat)
    | Answer(id: string, answer: WriteReply)

  /** An id no call has used and no group lists: what a new UUID is. */
  ghost predicate FreshId(s: State, id: string) {
    id !in s.calls && forall g :: id !in Current(s, g)
  }

  /** A read returns some past entry of the key, or that it is (was) absent, or fails. */
  ghost predicate ReadAllowed(log: Log, reply: ReadReply) {
    reply.Found? ==> exists j :: 0 <= j < |log| && log[j].value == reply.ids && log[j].revision == reply.revision
  }

  ghost predicate TookEffect(log: Log, id: string, attempt: nat) {
    exists k :: 0 <= k < |log| && log[k].writer == By(id, attempt)
  }

  /** The write a call has on the network while it is Writing. */
  ghost function Sends(id: string, c: Call): set<Write> {
    if c.pc.Writing? then {Write(c.group, id, c.pc.attempt, c.pc.ids, c.pc.last)} else {}
  }

  ghost predicate Next(s: State, t: State, step: Step) {
    match step
    case Start(id, g) =>
      && FreshId(s, id)
      && t == s.(calls := s.calls[id := Call(g, Begin(g, id))])
    case Read(id, reply) =>
      && id in s.calls && (s.calls[id].pc.Reading? || s.calls[id].pc.Rechecking?)
      && ReadAllowed(LogOf(s, s.calls[id].group), reply)
      && var c := s.calls[id].(pc := AfterRead(s.calls[id].pc, id, reply));
         t == s.(calls := s.calls[id := c], sent := s.sent + Sends(id, c))
    case Land(w, revision) =>
      && w in s.sent
      && Matches(LogOf(s, w.group), w.last) && NewRevision(LogOf(s, w.group), revision)
      && t == s.(logs := s.logs[w.group := LogOf(s, w.group) + [Entry(w.ids, revision, By(w.email, w.attempt))]])
    case Answer(id, reply) =>
      && id in s.calls && s.calls[id].pc.Writing?
      && (reply == Acked ==> TookEffect(LogOf(s, s.calls[id].group), id, s.calls[id].pc.attempt))
      && t == s.(calls := s.calls[id := s.calls[id].(pc := AfterWrite(s.calls[id].pc, reply))])
  }

  // ---- invariant ----

  /** Entry k is its predecessor with one new id at the end, written below the cap. */
  ghost predicate Extends(log: Log, k: nat)
    requires k < |log|
  {
    var w := log[k].writer;
    if k == 0 then w.By? ==> log[k].value == [w.email]
    else w.By? && log[k].value == log[k - 1].value + [w.email] &&
         w.email !in log[k - 1].value && |log[k - 1].value| < MAX_GROUP_EMAILS
  }

  ghost predicate LogOk(log: Log) {
    Increasing(log) && forall k :: 0 <= k < |log| ==> Extends(log, k)
  }

  /** A sent write carries some entry's value plus its own new id. */
  ghost predicate BasedOn(log: Log, w: Write, j: nat)
    requires j < |log|
  {
    && w.last == Some(log[j].revision) && w.ids == log[j].value + [w.email]
    && w.email !in log[j].value && |log[j].value| < MAX_GROUP_EMAILS
  }

  ghost predicate WriteOk(s: State, w: Write) {
    && w.email in s.calls && s.calls[w.email].group == w.group
    && match w.last
       case None => w.ids == [w.email]
       case Some(_) => exists j :: 0 <= j < |LogOf(s, w.group)| && BasedOn(LogOf(s, w.group), w, j)
  }

  ghost predicate Wrote(s: State, id: string) {
    exists w :: w in s.sent && w.email == id
  }

  ghost predicate CallOk(s: State, id: string)
    requires id in s.calls
  {
    var c := s.calls[id];
    match c.pc
    case Reading(a) => a == 0 ==> !Wrote(s, id)
    case Writing(_, _, _) => Sends(id, c) <= s.sent
    case Rechecking => true
    case Done(o) =>
      match o
      case Appended => id in Current(s, c.group)
      case GroupFull => id !in Current(s, c.group) && |Current(s, c.group)| >= MAX_GROUP_EMAILS
      case Failed => true
  }

  /** Ids of calls get into an index only through a write of that call. */
  ghost predicate Sourced(s: State, id: string) {
    Wrote(s, id) || forall g :: id !in Current(s, g)
  }

  ghost predicate Inv(s: State) {
    && (forall g :: g in s.logs ==> LogOk(s.logs[g]))
    && (forall w :: w in s.sent ==> WriteOk(s, w))
    && (forall id :: id in s.calls ==> CallOk(s, id) && Sourced(s, id))
  }

  lemma InitInv(s: State)
    requires Init(s)
    ensures Inv(s)
  {
  }

  // ---- logs ----

  lemma {:induction false} ValuesGrow(log: Log, i: nat, j: nat)
    requires LogOk(log) && i <= j < |log|
    ensures log[i].value <= log[j].value
    ensures i < j ==> |log[i].value| < MAX_GROUP_EMAILS
  {
    if i < j {
      ValuesGrow(log, i, j - 1);
      assert Extends(log, j);
    }
  }

  /** The last element of an entry written in this run is its writer's id, for good. */
  lemma EffectIsCurrent(s: State, g: string, id: string, attempt: nat)
    requires LogOk(LogOf(s, g)) && TookEffect(LogOf(s, g), id, attempt)
    ensures id in Current(s, g)
  {
    var log := LogOf(s, g);
    var k :| 0 <= k < |log| && log[k].writer == By(id, attempt);
    assert Extends(log, k);
    assert log[k].value[|log[k].value| - 1] == id;
    ValuesGrow(log, k, |log| - 1);
  }

  lemma LandKeepsLogOk(log: Log, w: Write, revision: nat)
    requires LogOk(log) && Matches(log, w.last) && NewRevision(log, revision)
    requires match w.last
             case None => w.ids == [w.email]
             case Some(_) => exists j :: 0 <= j < |log| && BasedOn(log, w, j)
    ensures LogOk(log + [Entry(w.ids, revision, By(w.email, w.attempt))])
    ensures log != [] ==> |log[|log| - 1].value| < MAX_GROUP_EMAILS && w.email !in log[|log| - 1].value &&
                          w.ids == log[|log| - 1].value + [w.email]
  {
    var e := Entry(w.ids, revision, By(w.email, w.attempt));
    AppendIncreasing(log, e);
    if log != [] {
      var j :| 0 <= j < |log| && BasedOn(log, w, j);
      MatchIsNewest(log, j);
    }
    forall k | 0 <= k < |log + [e]| ensures Extends(log + [e], k) {
      if k < |log| { assert Extends(log, k); }
    }
  }

  // ---- preservation, one step at a time ----

  lemma StartInv(s: State, t: State, id: string, g: string)
    requires Inv(s) && Next(s, t, Start(id, g))
    ensures Inv(t)
  {
    forall w | w in t.sent ensures WriteOk(t, w) { FrameWrite(s, t, w); }
    assert !Wrote(t, id);
    forall x | x in t.calls ensures CallOk(t, x) && Sourced(t, x) {
      FrameCall(s, t, x);
    }
  }

  lemma FrameWrite(s: State, t: State, w: Write)
    requires WriteOk(s, w) && t.logs == s.logs && w.email in t.calls && t.calls[w.email].group == w.group
    ensures WriteOk(t, w)
  {
    if w.last.Some? {
      var j :| 0 <= j < |LogOf(s, w.group)| && BasedOn(LogOf(s, w.group), w, j);
      assert BasedOn(LogOf(t, w.group), w, j);
    }
  }

  /** A call is unaffected by a step that leaves it, the logs and its own writes alone. */
  lemma FrameCall(s: State, t: State, id: string)
    requires t.logs == s.logs && s.sent <= t.sent
    requires forall w :: w in t.sent && w !in s.sent ==> w.email != id
    ensures id in s.calls && id in t.calls && t.calls[id] == s.calls[id] && CallOk(s, id) ==> CallOk(t, id)
    ensures Sourced(s, id) ==> Sourced(t, id)
    ensures Wrote(s, id) <==> Wrote(t, id)
  {
    assert forall g :: Current(t, g) == Current(s, g);
  }

  lemma ReadInv(s: State, t: State, id: string, reply: ReadReply)
    requires Inv(s) && Next(s, t, Read(id, reply))
    ensures Inv(t)
  {
    hide AfterRead;
    assert forall g :: Current(t, g) == Current(s, g);
    forall x | x in t.calls ensures CallOk(t, x) && Sourced(t, x) {
      if x == id {
        ReadCallOk(s, t, id, reply);
      } else {
        FrameCall(s, t, x);
      }
    }
    forall w | w in t.sent ensures WriteOk(t, w) {
      if w in s.sent { FrameWrite(s, t, w); } else { ReadWriteOk(s, t, id, reply, w); }
    }
  }

  /** What a snapshot says about the current value. */
  lemma SnapshotBelow(s: State, g: string, ids: seq<string>, revision: nat) returns (j: nat)
    requires LogOk(LogOf(s, g)) && ReadAllowed(LogOf(s, g), Found(ids, revision))
    ensures j < |LogOf(s, g)| && LogOf(s, g)[j].value == ids && LogOf(s, g)[j].revision == revision
    ensures ids <= Current(s, g) && (|ids| >= MAX_GROUP_EMAILS ==> ids == Current(s, g))
  {
    var log := LogOf(s, g);
    j :| 0 <= j < |log| && log[j].value == ids && log[j].revision == revision;
    ValuesGrow(log, j, |log| - 1);
  }

  /** What the read found contains no fresh id, so a first write never duplicates one. */
  lemma FirstReadIsClean(s: State, id: string, reply: ReadReply)
    requires Inv(s) && id in s.calls && s.calls[id].pc == Reading(0)
    requires ReadAllowed(LogOf(s, s.calls[id].group), reply) && reply.Found?
    ensures id !in reply.ids
  {
    var g := s.calls[id].group;
    assert CallOk(s, id) && Sourced(s, id);
    LogsOk(s, g);
    var j := SnapshotBelow(s, g, reply.ids, reply.revision);
    assert id !in Current(s, g);
  }

  lemma LogsOk(s: State, g: string)
    requires Inv(s)
    ensures LogOk(LogOf(s, g))
  {
  }

  lemma ReadCallOk(s: State, t: State, id: string, reply: ReadReply)
    requires Inv(s) && Next(s, t, Read(id, reply))
    ensures CallOk(t, id) && Sourced(t, id)
  {
    var c := s.calls[id];
    LogsOk(s, c.group);
    assert CallOk(s, id) && Sourced(s, id);
    assert forall g :: Current(t, g) == Current(s, g);
    if Wrote(s, id) {
      var w :| w in s.sent && w.email == id;
      assert w in t.sent;
    }
    if reply.Found? {
      var j := SnapshotBelow(s, c.group, reply.ids, reply.revision);
      if c.pc == Reading(0) { FirstReadIsClean(s, id, reply); }
    }
  }

  lemma ReadWriteOk(s: State, t: State, id: string, reply: ReadReply, w: Write)
    requires Inv(s) && Next(s, t, Read(id, reply)) && w in t.sent && w !in s.sent
    ensures WriteOk(t, w)
  {
    var c := s.calls[id];
    LogsOk(s, c.group);
    if reply.Found? {
      var j := SnapshotBelow(s, c.group, reply.ids, reply.revision);
      if c.pc == Reading(0) { FirstReadIsClean(s, id, reply); }
      assert BasedOn(LogOf(t, c.group), w, j);
    }
  }

  lemma AnswerInv(s: State, t: State, id: string, reply: WriteReply)
    requires Inv(s) && Next(s, t, Answer(id, reply))
    ensures Inv(t)
  {
    var g := s.calls[id].group;
    LogsOk(s, g);
    assert CallOk(s, id);
    if reply == Acked {
      EffectIsCurrent(s, g, id, s.calls[id].pc.attempt);
    }
    assert Current(t, g) == Current(s, g);
    forall w | w in t.sent ensures WriteOk(t, w) { FrameWrite(s, t, w); }
    forall x | x in t.calls ensures CallOk(t, x) && Sourced(t, x) {
      FrameCall(s, t, x);
    }
  }

  /** A landing write appends its id to the current value, which was below the cap and without it. */
  lemma LandAppends(s: State, t: State, w: Write, revision: nat)
    requires Inv(s) && Next(s, t, Land(w, revision))
    ensures Current(t, w.group) == Current(s, w.group) + [w.email]
    ensures w.email !in Current(s, w.group) && |Current(s, w.group)| < MAX_GROUP_EMAILS
    ensures forall g :: g != w.group ==> LogOf(t, g) == LogOf(s, g)
    ensures LogOf(s, w.group) <= LogOf(t, w.group) && LogOk(LogOf(t, w.group))
  {
    LogsOk(s, w.group);
    assert WriteOk(s, w);
    LandKeepsLogOk(LogOf(s, w.group), w, revision);
  }

  lemma LandInv(s: State, t: State, w: Write, revision: nat)
    requires Inv(s) && Next(s, t, Land(w, revision))
    ensures Inv(t)
  {
    hide LogOk;
    LandAppends(s, t, w, revision);
    forall g | g in t.logs ensures LogOk(t.logs[g]) {
      assert t.logs[g] == LogOf(t, g);
      LogsOk(s, g);
    }
    forall v | v in t.sent ensures WriteOk(t, v) { LandWriteOk(s, t, w, revision, v); }
    forall x | x in t.calls ensures CallOk(t, x) && Sourced(t, x) { LandCallOk(s, t, w, revision, x); }
  }

  lemma LandWriteOk(s: State, t: State, w: Write, revision: nat, v: Write)
    requires Inv(s) && Next(s, t, Land(w, revision)) && v in s.sent
    requires LogOf(s, w.group) <= LogOf(t, w.group)
    ensures WriteOk(t, v)
  {
    assert WriteOk(s, v);
    if v.last.Some? {
      var j :| 0 <= j < |LogOf(s, v.group)| && BasedOn(LogOf(s, v.group), v, j);
      assert LogOf(t, v.group)[j] == LogOf(s, v.group)[j];
      assert BasedOn(LogOf(t, v.group), v, j);
    }
  }

  lemma LandCallOk(s: State, t: State, w: Write, revision: nat, x: string)
    requires Inv(s) && Next(s, t, Land(w, revision)) && x in s.calls
    ensures CallOk(t, x) && Sourced(t, x)
  {
    hide LogOk;
    LandAppends(s, t, w, revision);
    assert CallOk(s, x) && Sourced(s, x);
    assert Wrote(t, w.email);
    assert Wrote(t, x) <==> Wrote(s, x);
    forall g ensures Current(t, g) == if g == w.group then Current(s, g) + [w.email] else Current(s, g) {
      if g != w.group { assert LogOf(t, g) == LogOf(s, g); }
    }
  }

  lemma NextInv(s: State, t: State, step: Step)
    requires Inv(s) && Next(s, t, step)
    ensures Inv(t)
  {
    hide Inv, Next;
    match step {
      case Start(id, g) => StartInv(s, t, id, g);
      case Read(id, reply) => ReadInv(s, t, id, reply);
      case Land(w, revision) => LandInv(s, t, w, revision);
      case Answer(id, reply) => AnswerInv(s, t, id, reply);
    }
  }

  /** An acknowledged write ends its call in success. */
  lemma AckedIsAppended(s: State, t: State, id: string)
    requires Next(s, t, Answer(id, Acked))
    ensures t.calls[id].pc == Done(Appended)
  {
  }

  // ---- what one step does to the indexes: the atomic reference ----

  /** The in-memory store's AppendToGroup on its map of groups. */
  function AtomicAppend(groups: map<string, seq<string>>, g: string, id: string): map<string, seq<string>> {
    var ids := if g in groups then groups[g] else [];
    if |ids| >= MAX_GROUP_EMAILS then groups else groups[g := ids + [id]]
  }

  ghost function Groups(s: State): map<string, seq<string>> {
    map g | g in s.logs :: Current(s, g)
  }

  /** Each step either leaves all indexes alone or is exactly one atomic append
      that the cap admits, of the id of a call made for that group. */
  lemma StepsAreAtomicAppends(s: State, t: State, step: Step)
    requires Inv(s) && Next(s, t, step)
    ensures step.Land? ==>
              var w := step.write;
              && Groups(t) == AtomicAppend(Groups(s), w.group, w.email)
              && |Current(s, w.group)| < MAX_GROUP_EMAILS
              && w.email in s.calls && s.calls[w.email].group == w.group
    ensures !step.Land? ==> Groups(t) == Groups(s)
  {
    hide Inv, LogOk;
    if step.Land? {
      var w := step.write;
      LandAppends(s, t, w, step.revision);
      SentOk(s, w);
      LandIsAppend(s, t, w, step.revision);
    }
  }

  lemma LandIsAppend(s: State, t: State, w: Write, revision: nat)
    requires Next(s, t, Land(w, revision))
    requires Current(t, w.group) == Current(s, w.group) + [w.email] && |Current(s, w.group)| < MAX_GROUP_EMAILS
    ensures Groups(t) == AtomicAppend(Groups(s), w.group, w.email)
  {
    LandFrame(s, t, w, revision);
    AbsentIsEmpty(s, w.group);
    hide Current, Next;
    var a, b := Groups(s), Groups(t);
    assert w.group in a ==> a[w.group] == Current(s, w.group);
    assert b == a[w.group := Current(s, w.group) + [w.email]];
  }

  /** A landing write touches one group. */
  lemma LandFrame(s: State, t: State, w: Write, revision: nat)
    requires Next(s, t, Land(w, revision))
    ensures forall g :: g in t.logs <==> g == w.group || g in s.logs
    ensures forall g :: g != w.group ==> Current(t, g) == Current(s, g)
  {
    forall g | g != w.group ensures Current(t, g) == Current(s, g) {
      assert LogOf(t, g) == LogOf(s, g);
    }
  }

  lemma AbsentIsEmpty(s: State, g: string)
    ensures g !in s.logs ==> Current(s, g) == []
  {
  }

  lemma SentOk(s: State, w: Write)
    requires Inv(s) && w in s.sent
    ensures w.email in s.calls && s.calls[w.email].group == w.group
  {
    assert WriteOk(s, w);
  }

  /** Indexes only extend, finished calls stay finished, a call keeps its group. */
  lemma StepMonotone(s: State, t: State, step: Step)
    requires Inv(s) && Next(s, t, step)
    ensures forall g :: Current(s, g) <= Current(t, g)
    ensures forall g :: Exists(s, g) ==> Exists(t, g)
    ensures forall id :: id in s.calls ==> id in t.calls && t.calls[id].group == s.calls[id].group
    ensures forall id :: id in s.calls && s.calls[id].pc.Done? ==> t.calls[id] == s.calls[id]
    ensures forall g :: |Current(s, g)| >= MAX_GROUP_EMAILS ==> Current(t, g) == Current(s, g)
  {
    hide Inv, LogOk;
    if step.Land? {
      LandAppends(s, t, step.write, step.revision);
      forall g ensures Current(s, g) <= Current(t, g) && (Exists(s, g) ==> Exists(t, g)) &&
                       (|Current(s, g)| >= MAX_GROUP_EMAILS ==> Current(t, g) == Current(s, g)) {
        if g != step.write.group { assert LogOf(t, g) == LogOf(s, g); }
      }
    } else {
      assert t.logs == s.logs;
    }
  }

  // ---- whole runs ----

  ghost predicate IsRun(run: seq<State>) {
    && run != [] && Init(run[0])
    && forall i :: 0 <= i < |run| - 1 ==> Moves(run[i], run[i + 1])
  }

  ghost predicate Moves(s: State, t: State) {
    exists step :: Next(s, t, step)
  }

  lemma {:induction false} RunInv(run: seq<State>, i: nat)
    requires IsRun(run) && i < |run|
    ensures Inv(run[i])
  {
    hide Inv, Next, Init;
    if i == 0 {
      InitInv(run[0]);
    } else {
      RunInv(run, i - 1);
      assert Moves(run[i - 1], run[i - 1 + 1]);
      var step :| Next(run[i - 1], run[i], step);
      NextInv(run[i - 1], run[i], step);
    }
  }

  /** What holds between two states of a run. */
  ghost predicate Onward(s: State, t: State) {
    && (forall g :: Current(s, g) <= Current(t, g))
    && (forall g :: Exists(s, g) ==> Exists(t, g))
    && (forall id :: id in s.calls ==> id in t.calls && t.calls[id].group == s.calls[id].group)
    && (forall id :: id in s.calls && s.calls[id].pc.Done? ==> t.calls[id] == s.calls[id])
    && (forall g :: |Current(s, g)| >= MAX_GROUP_EMAILS ==> Current(t, g) == Current(s, g))
  }

  lemma OnwardTransitive(s: State, t: State, u: State)
    requires Onward(s, t) && Onward(t, u)
    ensures Onward(s, u)
  {
  }

  lemma {:induction false} RunOnward(run: seq<State>, i: nat, j: nat)
    requires IsRun(run) && i <= j < |run|
    ensures Onward(run[i], run[j])
  {
    hide Inv, Next, Init, Onward;
    if i == j {
      OnwardReflexive(run[i]);
    } else {
      RunOnward(run, i, j - 1);
      RunInv(run, j - 1);
      assert Moves(run[j - 1], run[j - 1 + 1]);
      var step :| Next(run[j - 1], run[j], step);
      StepOnward(run[j - 1], run[j], step);
      OnwardTransitive(run[i], run[j - 1], run[j]);
    }
  }

  lemma OnwardReflexive(s: State)
    ensures Onward(s, s)
  {
  }

  lemma StepOnward(s: State, t: State, step: Step)
    requires Inv(s) && Next(s, t, step)
    ensures Onward(s, t)
  {
    hide Inv, Next;
    StepMonotone(s, t, step);
  }

  /** In every run an index only extends at its end. */
  lemma IndexOnlyExtends(run: seq<State>, i: nat, j: nat, g: string)
    requires IsRun(run) && i <= j < |run|
    ensures Current(run[i], g) <= Current(run[j], g)
  {
    hide IsRun;
    RunOnward(run, i, j);
  }

  /** Once a call reported success its id is in every later index value of its group. */
  lemma SuccessIsPermanent(run: seq<State>, i: nat, j: nat, id: string)
    requires IsRun(run) && i <= j < |run|
    requires id in run[i].calls && run[i].calls[id].pc == Done(Appended)
    ensures id in Current(run[j], run[i].calls[id].group)
  {
    hide IsRun;
    RunInv(run, i);
    RunOnward(run, i, j);
    assert CallOk(run[i], id);
  }

  /** Once a call reported a full group, the group is full, the id is not in it, and
      it never will be, whatever writes of the call are still on the network. */
  lemma GroupFullIsFinal(run: seq<State>, i: nat, j: nat, id: string)
    requires IsRun(run) && i <= j < |run|
    requires id in run[i].calls && run[i].calls[id].pc == Done(GroupFull)
    ensures var ids := Current(run[j], run[i].calls[id].group);
            |ids| >= 10_000 && id !in ids
  {
    hide IsRun;
    RunInv(run, i);
    RunOnward(run, i, j);
    assert CallOk(run[i], id);
  }

  /** Positions appended during the run hold ids different from everything before them. */
  ghost predicate NoRepeats(ids: seq<string>, start: nat) {
    forall i, k :: 0 <= i < k < |ids| && start <= k ==> ids[i] != ids[k]
  }

  lemma {:induction false} LogNoRepeats(log: Log, k: nat)
    requires LogOk(log) && k < |log|
    ensures |log[0].value| <= |log[k].value|
    ensures NoRepeats(log[k].value, if log[0].writer == Seed then |log[0].value| else 0)
  {
    assert Extends(log, 0);
    if k > 0 {
      LogNoRepeats(log, k - 1);
      assert Extends(log, k);
    }
  }

  /** No id is ever listed twice by appends: beyond what the group held at the
      start of the run, every position differs from all earlier ones. */
  lemma EachIdAtMostOnce(run: seq<State>, j: nat, g: string)
    requires IsRun(run) && j < |run|
    ensures Current(run[0], g) <= Current(run[j], g)
    ensures NoRepeats(Current(run[j], g), |Current(run[0], g)|)
  {
    hide Inv, Next;
    RunInv(run, j);
    RunOnward(run, 0, j);
    FirstEntry(run, j, g);
    var log := LogOf(run[j], g);
    LogsOk(run[j], g);
    if log != [] {
      LogNoRepeats(log, |log| - 1);
    }
  }

  /** The first entry of a log is what the run found, or was written in it. */
  lemma {:induction false} FirstEntry(run: seq<State>, j: nat, g: string)
    requires IsRun(run) && j < |run|
    ensures if Exists(run[0], g) then Exists(run[j], g) && LogOf(run[j], g)[0] == LogOf(run[0], g)[0]
            else Exists(run[j], g) ==> LogOf(run[j], g)[0].writer.By?
    ensures Exists(run[0], g) ==> Current(run[0], g) == LogOf(run[0], g)[0].value && LogOf(run[0], g)[0].writer == Seed
  {
    hide Inv;
    if j > 0 {
      hide Init;
      FirstEntry(run, j - 1, g);
      assert Moves(run[j - 1], run[j - 1 + 1]);
      var step :| Next(run[j - 1], run[j], step);
    }
  }

  /** No run makes an index longer than its starting length or the cap. */
  lemma {:induction false} IndexStaysBounded(run: seq<State>, j: nat, g: string)
    requires IsRun(run) && j < |run|
    ensures |Current(run[j], g)| <= 10_000 || Current(run[j], g) == Current(run[0], g)
  {
    hide Inv, Next, Init;
    if j > 0 {
      IndexStaysBounded(run, j - 1, g);
      RunInv(run, j - 1);
      assert Moves(run[j - 1], run[j - 1 + 1]);
      var step :| Next(run[j - 1], run[j], step);
      StepGrowth(run[j - 1], run[j], step, g);
    }
  }

  lemma StepGrowth(s: State, t: State, step: Step, g: string)
    requires Inv(s) && Next(s, t, step)
    ensures Current(t, g) == Current(s, g) || |Current(t, g)| <= MAX_GROUP_EMAILS
  {
    hide Inv, LogOk;
    if step.Land? {
      LandAppends(s, t, step.write, step.revision);
      if g != step.write.group { assert LogOf(t, g) == LogOf(s, g); }
    }
  }

  ghost predicate AllUuids(ids: seq<string>) {
    forall i :: 0 <= i < |ids| ==> IsUuid(ids[i])
  }

  /** AppendToGroup refuses an id that is no UUID, so none is ever sent. */
  ghost predicate UuidsOnly(s: State) {
    && (forall w :: w in s.sent ==> IsUuid(w.email))
    && (forall id :: id in s.calls && s.calls[id].pc != Done(Failed) ==> IsUuid(id))
  }

  lemma StepUuids(s: State, t: State, step: Step)
    requires Next(s, t, step) && UuidsOnly(s)
    ensures UuidsOnly(t)
  {
    hide IsUuid;
  }

  lemma StepKeepsUuids(s: State, t: State, step: Step, g: string)
    requires Inv(s) && Next(s, t, step) && UuidsOnly(s) && AllUuids(Current(s, g))
    ensures AllUuids(Current(t, g))
  {
    hide Inv, LogOk, IsUuid;
    if step.Land? {
      LandAppends(s, t, step.write, step.revision);
      if g != step.write.group { assert LogOf(t, g) == LogOf(s, g); }
    } else {
      assert t.logs == s.logs;
    }
  }

  /** An index that holds only UUIDs at the start of a run does so ever after. */
  lemma {:induction false} IndexHoldsUuids(run: seq<State>, j: nat, g: string)
    requires IsRun(run) && j < |run| && AllUuids(Current(run[0], g))
    ensures UuidsOnly(run[j]) && AllUuids(Current(run[j], g))
  {
    hide Inv, Next, AllUuids, Current;
    if j > 0 {
      hide Init, UuidsOnly;
      IndexHoldsUuids(run, j - 1, g);
      RunInv(run, j - 1);
      assert Moves(run[j - 1], run[j - 1 + 1]);
      var step :| Next(run[j - 1], run[j], step);
      StepUuids(run[j - 1], run[j], step);
      StepKeepsUuids(run[j - 1], run[j], step, g);
    }
  }

  /** A non-empty index that started within the cap and with UUIDs only encodes to 39
      bytes an id and one more, and stays far below the bucket's value limit. */
  lemma IndexValueFits(run: seq<State>, j: nat, g: string)
    requires IsRun(run) && j < |run| && |Current(run[0], g)| <= MAX_GROUP_EMAILS && AllUuids(Current(run[0], g))
    requires Current(run[j], g) != []
    ensures RawLen(IndexJson(Current(run[j], g))) == 39 * |Current(run[j], g)| + 1 <= 390_001 < 1_048_576
  {
    hide IsRun, IndexJson;
    IndexStaysBounded(run, j, g);
    IndexHoldsUuids(run, j, g);
    IndexJsonLen(Current(run[j], g));
  }
}
