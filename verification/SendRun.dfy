/** send_email as a concurrent system on top of the group index: the check of a
    supplied handle, the send, the index append, then the record write and the
    reply. Any number of requests interleave with each other and with the index. */
module SendRun {
  import opened Wire
  import opened GroupIndex

  /** A request before its mail is sent; group is the supplied handle or "". */
  datatype Request = Checking(group: string) | Ready(group: string) | Closed

  /** A sent mail, keyed by its email id: waiting for the append, then (the record write
      issued or skipped) about to be answered, then answered; groupId is the reply's. */
  datatype Tracked =
    | Waiting(group: string, isNew: bool)
    | Replying(group: string, isNew: bool, groupId: string)
    | Answered(group: string, isNew: bool, groupId: string)

  /** puts: record writes issued (email id to the record's group_id), which may take
      effect at any later time or never; records: those that did. */
  datatype State = State(index: GroupIndex.State, requests: map<nat, Request>, tracked: map<string, Tracked>,
                         puts: map<string, string>, records: map<string, string>)

  datatype Sent = Refused(throttled: bool) | Disabled | Mailed(id: string, handle: string)

  datatype Existence = Known | Full | Unknown | CheckFailed

  /** GroupExists on what its one read returned. */
  function GroupExists(reply: ReadReply): Existence {
    match reply
    case Missing => Unknown
    case ReadFailed => CheckFailed
    case Found(ids, _) => if |ids| >= MAX_GROUP_EMAILS then Full else Known
  }

  /** Whether the record is written and the handle returned, given how the append ended. */
  function Recorded(o: Outcome, isNew: bool): bool {
    match o
    case Appended => true
    case GroupFull => false
    case Failed => !isNew
  }

  datatype Step =
    | Arrive(request: nat, group: string)
    | Check(request: nat, reply: ReadReply)
    | Send(request: nat, sent: Sent)
    | Index(step: GroupIndex.Step)
    | Finish(id: string)
    | Reply(id: string)
    | PutLands(id: string)

  ghost predicate Next(s: State, t: State, step: Step) {
    match step
    case Arrive(q, g) =>
      q !in s.requests &&
      t == s.(requests := s.requests[q := if g == "" then Ready("")
                                          else if IsGroupHandle(g) then Checking(g) else Closed])
    case Check(q, reply) =>
      && q in s.requests && s.requests[q].Checking?
      && var g := s.requests[q].group;
         ReadAllowed(LogOf(s.index, g), reply) &&
         t == s.(requests := s.requests[q := if GroupExists(reply) == Known then Ready(g) else Closed])
    case Send(q, sent) =>
      && q in s.requests && s.requests[q].Ready?
      && var closed := s.requests[q := Closed];
         (match sent
         case Refused(_) => t == s.(requests := closed)
         case Disabled => t == s.(requests := closed)
         case Mailed(id, handle) =>
           var isNew := s.requests[q].group == "";
           var g := if isNew then handle else s.requests[q].group;
           && IsGroupHandle(handle)
           && GroupIndex.Next(s.index, t.index, Start(id, g))
           && t == s.(requests := closed, index := t.index, tracked := s.tracked[id := Waiting(g, isNew)]))
    case Index(x) =>
      !x.Start? && GroupIndex.Next(s.index, t.index, x) && t == s.(index := t.index)
    case Finish(id) =>
      && id in s.tracked && s.tracked[id].Waiting? && id in s.index.calls && s.index.calls[id].pc.Done?
      && var w := s.tracked[id];
         var recorded := Recorded(s.index.calls[id].pc.outcome, w.isNew);
         t == s.(tracked := s.tracked[id := Replying(w.group, w.isNew, if recorded then w.group else "")],
                 puts := if recorded then s.puts[id := w.group] else s.puts)
    case Reply(id) =>
      && id in s.tracked && s.tracked[id].Replying?
      && var x := s.tracked[id];
         t == s.(tracked := s.tracked[id := Answered(x.group, x.isNew, x.groupId)])
    case PutLands(id) =>
      id in s.puts && t == s.(records := s.records[id := s.puts[id]])
  }

  ghost predicate Init(s: State) {
    GroupIndex.Init(s.index) && s.requests == map[] && s.tracked == map[] && s.puts == map[] && s.records == map[]
  }

  // ---- invariant ----

  ghost predicate RequestOk(s: State, q: nat)
    requires q in s.requests
  {
    s.requests[q].Ready? ==> s.requests[q].group == "" || GroupIndex.Exists(s.index, s.requests[q].group)
  }

  /** The append succeeded, or failed for a group that existed before. */
  predicate HasHandle(pc: Pc, isNew: bool) {
    pc == Done(Appended) || (pc == Done(Failed) && !isNew)
  }

  ghost predicate TrackedOk(s: State, id: string)
    requires id in s.tracked
  {
    var x := s.tracked[id];
    && id in s.index.calls && s.index.calls[id].group == x.group && x.group != ""
    && (!x.isNew ==> GroupIndex.Exists(s.index, x.group))
    && if x.Waiting? then id !in s.puts
       else
         && s.index.calls[id].pc.Done?
         && (x.groupId != "" ==> x.groupId == x.group && GroupIndex.Exists(s.index, x.group))
         && (x.groupId != "" && x.isNew ==> id in Current(s.index, x.group))
         && x.groupId == (if HasHandle(s.index.calls[id].pc, x.isNew) then x.group else "")
         && (id in s.puts <==> x.groupId != "")
  }

  ghost predicate PutOk(s: State, id: string)
    requires id in s.puts
  {
    id in s.tracked && !s.tracked[id].Waiting? &&
    s.tracked[id].group == s.tracked[id].groupId == s.puts[id] && GroupIndex.Exists(s.index, s.puts[id])
  }

  ghost predicate SInv(s: State) {
    && GroupIndex.Inv(s.index)
    && (forall q :: q in s.requests ==> RequestOk(s, q))
    && (forall id :: id in s.tracked ==> TrackedOk(s, id))
    && (forall id :: id in s.puts ==> PutOk(s, id))
    && (forall id :: id in s.records ==> id in s.puts && s.records[id] == s.puts[id])
  }

  lemma InitSInv(s: State)
    requires Init(s)
    ensures SInv(s)
  {
    InitInv(s.index);
  }

  /** Moving the index onward keeps what was known about everything else. */
  lemma IndexOnwardKeeps(s: State, t: State)
    requires SInv(s) && GroupIndex.Inv(t.index) && Onward(s.index, t.index) && t == s.(index := t.index)
    ensures SInv(t)
  {
    hide GroupIndex.Inv;
    forall q | q in t.requests ensures RequestOk(t, q) { assert RequestOk(s, q); }
    forall id | id in t.tracked ensures TrackedOk(t, id) {
      assert TrackedOk(s, id);
      assert Current(s.index, s.tracked[id].group) <= Current(t.index, s.tracked[id].group);
    }
    forall id | id in t.puts ensures PutOk(t, id) { assert PutOk(s, id); }
  }

  lemma RequestStepInv(s: State, t: State, q: nat, r: Request)
    requires SInv(s) && t == s.(requests := s.requests[q := r])
    requires r.Ready? ==> r.group == "" || GroupIndex.Exists(s.index, r.group)
    ensures SInv(t)
  {
    hide GroupIndex.Inv;
    forall x | x in t.requests ensures RequestOk(t, x) { if x != q { assert RequestOk(s, x); } }
    forall id | id in t.tracked ensures TrackedOk(t, id) { assert TrackedOk(s, id); }
    forall id | id in t.puts ensures PutOk(t, id) { assert PutOk(s, id); }
  }

  lemma CheckInv(s: State, t: State, q: nat, reply: ReadReply)
    requires SInv(s) && Next(s, t, Check(q, reply))
    ensures SInv(t)
  {
    hide SInv;
    RequestStepInv(s, t, q, t.requests[q]);
  }

  lemma MailInv(s: State, t: State, q: nat, id: string, handle: string)
    requires SInv(s) && Next(s, t, Send(q, Mailed(id, handle)))
    ensures SInv(t)
  {
    hide GroupIndex.Inv, GroupIndex.Next, Onward;
    var isNew := s.requests[q].group == "";
    var g := if isNew then handle else s.requests[q].group;
    assert RequestOk(s, q);
    NextInv(s.index, t.index, Start(id, g));
    StepOnward(s.index, t.index, Start(id, g));
    var u, v := s.(index := t.index), s.(index := t.index, requests := t.requests);
    IndexOnwardKeeps(s, u);
    RequestStepInv(u, v, q, Closed);
    StartedCall(s.index, t.index, id, g);
    NewIdUntracked(s, t, Send(q, Mailed(id, handle)));
    MailTracks(v, t, id, g, isNew);
  }

  lemma StartedCall(s: GroupIndex.State, t: GroupIndex.State, id: string, g: string)
    requires GroupIndex.Next(s, t, Start(id, g))
    ensures id !in s.calls && id in t.calls && t.calls[id].group == g
    ensures GroupIndex.Exists(t, g) == GroupIndex.Exists(s, g)
  {
  }

  lemma MailTracks(s: State, t: State, id: string, g: string, isNew: bool)
    requires SInv(s) && id !in s.tracked && g != "" && id in s.index.calls && s.index.calls[id].group == g
    requires !isNew ==> GroupIndex.Exists(s.index, g)
    requires t == s.(tracked := s.tracked[id := Waiting(g, isNew)])
    ensures SInv(t)
  {
    hide GroupIndex.Inv;
    assert id in s.puts ==> PutOk(s, id);
    forall q | q in t.requests ensures RequestOk(t, q) { assert RequestOk(s, q); }
    forall x | x in t.tracked ensures TrackedOk(t, x) { assert x != id ==> TrackedOk(s, x); }
    forall x | x in t.puts ensures PutOk(t, x) { assert PutOk(s, x); }
  }

  /** What a finished append tells: a recorded mail's group exists, a recorded first
      mail is in it, and a full group is not recorded. */
  lemma FinishFacts(s: State, id: string)
    requires SInv(s) && id in s.tracked && s.tracked[id].Waiting? && s.index.calls[id].pc.Done?
    ensures var w, o := s.tracked[id], s.index.calls[id].pc.outcome;
            && (Recorded(o, w.isNew) ==> GroupIndex.Exists(s.index, w.group))
            && (Recorded(o, w.isNew) && w.isNew ==> id in Current(s.index, w.group))
            && (Recorded(o, w.isNew) <==> HasHandle(Done(o), w.isNew))
  {
    assert TrackedOk(s, id);
    CallsOk(s.index, id);
  }

  lemma FinishInv(s: State, t: State, id: string)
    requires SInv(s) && Next(s, t, Finish(id))
    ensures SInv(t)
  {
    hide GroupIndex.Inv, Recorded, HasHandle;
    assert TrackedOk(s, id);
    FinishFacts(s, id);
    FinishFrame(s, t, id);
    hide Next;
    forall q | q in t.requests ensures RequestOk(t, q) { assert RequestOk(s, q); }
    forall x | x in t.tracked ensures TrackedOk(t, x) { if x != id { assert TrackedOk(s, x); } }
    forall x | x in t.puts ensures PutOk(t, x) { if x != id { assert PutOk(s, x); } }
  }

  /** Finishing one append settles that mail, and leaves everything else as it was. */
  lemma FinishFrame(s: State, t: State, id: string)
    requires Next(s, t, Finish(id)) && id !in s.puts
    ensures t.index == s.index && t.requests == s.requests && t.records == s.records
    ensures id in s.tracked && s.tracked[id].Waiting? && id in s.index.calls && s.index.calls[id].pc.Done?
    ensures var w := s.tracked[id];
            var recorded := Recorded(s.index.calls[id].pc.outcome, w.isNew);
            && id in t.tracked && t.tracked[id] == Replying(w.group, w.isNew, if recorded then w.group else "")
            && (id in t.puts <==> recorded) && (recorded ==> t.puts[id] == w.group)
    ensures forall x :: x != id ==> (x in t.tracked <==> x in s.tracked) && (x in t.puts <==> x in s.puts)
    ensures forall x :: x != id && x in s.tracked ==> t.tracked[x] == s.tracked[x]
    ensures forall x :: x != id && x in s.puts ==> t.puts[x] == s.puts[x]
  {
  }

  lemma ReplyInv(s: State, t: State, id: string)
    requires SInv(s) && Next(s, t, Reply(id))
    ensures SInv(t)
  {
    hide GroupIndex.Inv;
    forall q | q in t.requests ensures RequestOk(t, q) { assert RequestOk(s, q); }
    forall x | x in t.tracked ensures TrackedOk(t, x) { assert TrackedOk(s, x); }
    forall x | x in t.puts ensures PutOk(t, x) { assert PutOk(s, x); }
  }

  lemma CallsOk(s: GroupIndex.State, id: string)
    requires GroupIndex.Inv(s) && id in s.calls
    ensures CallOk(s, id)
  {
  }

  lemma NextSInv(s: State, t: State, step: Step)
    requires SInv(s) && Next(s, t, step)
    ensures SInv(t)
  {
    hide SInv;
    match step {
      case Arrive(q, g) => RequestStepInv(s, t, q, t.requests[q]);
      case Check(q, reply) => CheckInv(s, t, q, reply);
      case Send(q, sent) =>
        if sent.Mailed? { MailInv(s, t, q, sent.id, sent.handle); } else { RequestStepInv(s, t, q, Closed); }
      case Index(x) =>
        assert GroupIndex.Inv(s.index) by { IndexInv(s); }
        NextInv(s.index, t.index, x);
        StepOnward(s.index, t.index, x);
        IndexOnwardKeeps(s, t);
      case Finish(id) => FinishInv(s, t, id);
      case Reply(id) => ReplyInv(s, t, id);
      case PutLands(id) => PutLandsInv(s, t, id);
    }
  }

  lemma IndexInv(s: State)
    requires SInv(s)
    ensures GroupIndex.Inv(s.index)
  {
  }

  lemma PutLandsInv(s: State, t: State, id: string)
    requires SInv(s) && Next(s, t, PutLands(id))
    ensures SInv(t)
  {
    hide GroupIndex.Inv;
    forall q | q in t.requests ensures RequestOk(t, q) { assert RequestOk(s, q); }
    forall x | x in t.tracked ensures TrackedOk(t, x) { assert TrackedOk(s, x); }
    forall x | x in t.puts ensures PutOk(t, x) { assert PutOk(s, x); }
  }

  // ---- whole runs ----

  ghost predicate Moves(s: State, t: State) {
    exists step :: Next(s, t, step)
  }

  ghost predicate IsRun(run: seq<State>) {
    run != [] && Init(run[0]) && forall i :: 0 <= i < |run| - 1 ==> Moves(run[i], run[i + 1])
  }

  lemma {:induction false} RunSInv(run: seq<State>, i: nat)
    requires IsRun(run) && i < |run|
    ensures SInv(run[i])
  {
    hide SInv, Next, Init;
    if i == 0 {
      InitSInv(run[0]);
    } else {
      RunSInv(run, i - 1);
      assert Moves(run[i - 1], run[i - 1 + 1]);
      var step :| Next(run[i - 1], run[i], step);
      NextSInv(run[i - 1], run[i], step);
    }
  }

  /** Once the append of a mail has ended, its group_id is settled, whether it is answered yet or not. */
  ghost predicate Settled(s: State, t: State) {
    forall id :: id in s.tracked && !s.tracked[id].Waiting? ==>
      && id in t.tracked && !t.tracked[id].Waiting?
      && t.tracked[id].groupId == s.tracked[id].groupId
      && (s.tracked[id].Answered? ==> t.tracked[id] == s.tracked[id])
  }

  lemma StepIndexOnward(s: State, t: State, step: Step)
    requires SInv(s) && Next(s, t, step)
    ensures Onward(s.index, t.index)
    ensures Settled(s, t)
  {
    IndexInv(s);
    hide GroupIndex.Inv, GroupIndex.Next;
    if t.index == s.index {
      OnwardReflexive(s.index);
    } else if step.Index? {
      StepOnward(s.index, t.index, step.step);
    } else {
      var q, sent := step.request, step.sent;
      var g := if s.requests[q].group == "" then sent.handle else s.requests[q].group;
      StepOnward(s.index, t.index, Start(sent.id, g));
    }
    StepSettles(s, t, step);
  }

  lemma StepSettles(s: State, t: State, step: Step)
    requires SInv(s) && Next(s, t, step)
    ensures Settled(s, t)
  {
    if step.Send? && step.sent.Mailed? { NewIdUntracked(s, t, step); }
    hide SInv, GroupIndex.Next, ReadAllowed, GroupExists, Recorded;
  }

  lemma NewIdUntracked(s: State, t: State, step: Step)
    requires SInv(s) && Next(s, t, step) && step.Send? && step.sent.Mailed?
    ensures step.sent.id !in s.tracked
  {
    assert step.sent.id in s.tracked ==> TrackedOk(s, step.sent.id);
  }

  lemma {:induction false} RunIndexOnward(run: seq<State>, i: nat, j: nat)
    requires IsRun(run) && i <= j < |run|
    ensures Onward(run[i].index, run[j].index)
    ensures Settled(run[i], run[j])
  {
    hide SInv, Next, Init, Onward;
    if i == j {
      OnwardReflexive(run[i].index);
    } else {
      RunIndexOnward(run, i, j - 1);
      RunSInv(run, j - 1);
      assert Moves(run[j - 1], run[j - 1 + 1]);
      var step :| Next(run[j - 1], run[j], step);
      StepIndexOnward(run[j - 1], run[j], step);
      OnwardTransitive(run[i].index, run[j - 1].index, run[j].index);
    }
  }

  /** A group_id once returned by send_email names an index key in every later
      state, and a handle issued by that send is returned only with its email in
      the index. */
  lemma ReturnedHandleIsLive(run: seq<State>, i: nat, j: nat, id: string)
    requires IsRun(run) && i <= j < |run|
    requires id in run[i].tracked && run[i].tracked[id].Answered? && run[i].tracked[id].groupId != ""
    ensures GroupIndex.Exists(run[j].index, run[i].tracked[id].groupId)
    ensures run[i].tracked[id].isNew ==> id in Current(run[j].index, run[i].tracked[id].groupId)
  {
    RunSInv(run, i);
    RunIndexOnward(run, i, j);
    assert TrackedOk(run[i], id);
  }

  /** Every stored record names an index key, and its mail is answered, if it is, with that
      handle; the write comes before the reply. */
  lemma StoredRecordIsReachable(run: seq<State>, i: nat, j: nat, id: string)
    requires IsRun(run) && i <= j < |run| && id in run[i].records
    ensures GroupIndex.Exists(run[j].index, run[i].records[id])
    ensures id in run[j].tracked && !run[j].tracked[id].Waiting? && run[j].tracked[id].groupId == run[i].records[id]
  {
    RunSInv(run, i);
    RunIndexOnward(run, i, j);
    assert PutOk(run[i], id);
  }

  /** Once the append of a mail has ended, the reply carries the handle and the record
      write is issued exactly if the append succeeded, or failed for a group that existed
      before the send. */
  lemma HandleFollowsOutcome(run: seq<State>, j: nat, id: string)
    requires IsRun(run) && j < |run| && id in run[j].tracked && !run[j].tracked[id].Waiting?
    ensures id in run[j].index.calls && run[j].index.calls[id].pc.Done?
    ensures var x, o := run[j].tracked[id], run[j].index.calls[id].pc.outcome;
            var handled := o == Appended || (o == Failed && !x.isNew);
            && x.groupId == (if handled then x.group else "")
            && (id in run[j].puts <==> handled) && (handled ==> run[j].puts[id] == x.group)
  {
    RunSInv(run, j);
    assert TrackedOk(run[j], id);
    assert id in run[j].puts ==> PutOk(run[j], id);
  }

  /** GroupExists tells a known group from a full and an unknown one. */
  lemma ExistenceIsExact(reply: ReadReply)
    ensures GroupExists(reply) == Known <==> reply.Found? && |reply.ids| < 10_000
    ensures GroupExists(reply) == Full <==> reply.Found? && |reply.ids| >= 10_000
    ensures GroupExists(reply) == Unknown <==> reply.Missing?
  {
  }

  lemma PutsAreTracked(s: State)
    requires SInv(s)
    ensures forall id :: id in s.puts ==> id in s.tracked && !s.tracked[id].Waiting?
    ensures forall id :: id in s.records ==> id in s.puts
  {
    forall id | id in s.puts ensures id in s.tracked && !s.tracked[id].Waiting? { assert PutOk(s, id); }
  }

  /** When the append found the group full, the handle is withheld and no record is
      ever written; nor is the email in the group's index. */
  lemma FullGroupIsWithheld(run: seq<State>, i: nat, j: nat, id: string)
    requires IsRun(run) && i <= j < |run|
    requires id in run[i].tracked && id in run[i].index.calls && run[i].index.calls[id].pc == Done(GroupFull)
    ensures id in run[j].tracked && !run[j].tracked[id].Waiting? ==> run[j].tracked[id].groupId == ""
    ensures id !in run[j].puts && id !in run[j].records
    ensures id !in Current(run[j].index, run[i].index.calls[id].group)
  {
    RunSInv(run, j);
    RunIndexOnward(run, i, j);
    assert CallOk(run[j].index, id) by { IndexInv(run[j]); CallsOk(run[j].index, id); }
    PutsAreTracked(run[j]);
    assert id in run[j].tracked ==> TrackedOk(run[j], id);
  }

  /** A record write is issued at most once per email id: a write that is on the
      network stays the only one, with the same group. */
  lemma OnePutPerEmail(s: State, t: State, step: Step, id: string)
    requires SInv(s) && Next(s, t, step) && id in s.puts
    ensures id in t.puts && t.puts[id] == s.puts[id]
    ensures !(step.Finish? && step.id == id)
  {
    assert PutOk(s, id);
  }
}
