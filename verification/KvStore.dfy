/** kv.Store and the handlers on top of it as imperative code. The buckets answer
    from fixed scripts of replies and log every request, so a method's contract can
    say exactly which requests it makes and what it returns for any replies. Each
    method is proved to execute the call program that the concurrent models run. */
module KvStore {
  import opened Wire
  import opened Record
  import opened Budget
  import GI = GroupIndex
  import UP = UpdateProgram
  import SR = SendRun

  datatype IndexRequest =
    | GetIndex(key: string)
    | CreateIndex(key: string, ids: seq<string>)
    | UpdateIndex(key: string, ids: seq<string>, last: nat)

  class IndexBucket {
    const onRead: nat -> GI.ReadReply
    const onWrite: nat -> GI.WriteReply
    var clock: nat
    ghost var requests: seq<IndexRequest>

    constructor (onRead: nat -> GI.ReadReply, onWrite: nat -> GI.WriteReply)
      ensures this.onRead == onRead && this.onWrite == onWrite && clock == 0 && requests == []
    {
      this.onRead, this.onWrite, this.clock, this.requests := onRead, onWrite, 0, [];
    }

    method Get(key: string) returns (r: GI.ReadReply)
      modifies this
      ensures r == onRead(old(clock)) && clock == old(clock) + 1
      ensures requests == old(requests) + [GetIndex(key)]
    {
      r, clock, requests := onRead(clock), clock + 1, requests + [GetIndex(key)];
    }

    method Create(key: string, ids: seq<string>) returns (r: GI.WriteReply)
      modifies this
      ensures r == onWrite(old(clock)) && clock == old(clock) + 1
      ensures requests == old(requests) + [CreateIndex(key, ids)]
    {
      r, clock, requests := onWrite(clock), clock + 1, requests + [CreateIndex(key, ids)];
    }

    method Update(key: string, ids: seq<string>, last: nat) returns (r: GI.WriteReply)
      modifies this
      ensures r == onWrite(old(clock)) && clock == old(clock) + 1
      ensures requests == old(requests) + [UpdateIndex(key, ids, last)]
    {
      r, clock, requests := onWrite(clock), clock + 1, requests + [UpdateIndex(key, ids, last)];
    }
  }

  datatype RecordRequest =
    | GetRec(key: string)
    | UpdateRec(key: string, rec: Rec, last: nat)
    | PutRec(key: string, rec: Rec)

  class RecordBucket {
    const onGet: nat -> UP.GetReply
    const onUpdate: nat -> UP.UpdateReply
    const onPut: nat -> bool
    var clock: nat
    ghost var requests: seq<RecordRequest>

    constructor (onGet: nat -> UP.GetReply, onUpdate: nat -> UP.UpdateReply, onPut: nat -> bool)
      ensures this.onGet == onGet && this.onUpdate == onUpdate && this.onPut == onPut && clock == 0 && requests == []
    {
      this.onGet, this.onUpdate, this.onPut, this.clock, this.requests := onGet, onUpdate, onPut, 0, [];
    }

    method Get(key: string) returns (r: UP.GetReply)
      modifies this
      ensures r == onGet(old(clock)) && clock == old(clock) + 1
      ensures requests == old(requests) + [GetRec(key)]
    {
      r, clock, requests := onGet(clock), clock + 1, requests + [GetRec(key)];
    }

    method Update(key: string, rec: Rec, last: nat) returns (r: UP.UpdateReply)
      modifies this
      ensures r == onUpdate(old(clock)) && clock == old(clock) + 1
      ensures requests == old(requests) + [UpdateRec(key, rec, last)]
    {
      r, clock, requests := onUpdate(clock), clock + 1, requests + [UpdateRec(key, rec, last)];
    }

    method Put(key: string, rec: Rec) returns (ok: bool)
      modifies this
      ensures ok == onPut(old(clock)) && clock == old(clock) + 1
      ensures requests == old(requests) + [PutRec(key, rec)]
    {
      ok, clock, requests := onPut(clock), clock + 1, requests + [PutRec(key, rec)];
    }
  }

  // ---- running the call programs against scripted replies ----

  /** How far a call program is from its end. */
  ghost function Rank(pc: GI.Pc): nat {
    match pc
    case Reading(a) => if a == 0 then 5 else 3
    case Writing(a, _, _) => if a == 0 then 4 else 2
    case Rechecking => 1
    case Done(_) => 0
  }

  ghost function RequestOf(pc: GI.Pc, group: string): IndexRequest
    requires pc.Writing?
  {
    match pc.last case None => CreateIndex(group, pc.ids) case Some(r) => UpdateIndex(group, pc.ids, r)
  }

  /** The requests and the outcome of the append program from pc, with replies from time t on. */
  ghost function RunAppend(pc: GI.Pc, group: string, id: string,
                           onRead: nat -> GI.ReadReply, onWrite: nat -> GI.WriteReply, t: nat)
    : (r: (seq<IndexRequest>, GI.Outcome))
    decreases Rank(pc)
  {
    match pc
    case Done(o) => ([], o)
    case Writing(_, _, _) =>
      var rest := RunAppend(GI.AfterWrite(pc, onWrite(t)), group, id, onRead, onWrite, t + 1);
      ([RequestOf(pc, group)] + rest.0, rest.1)
    case _ =>
      var rest := RunAppend(GI.AfterRead(pc, id, onRead(t)), group, id, onRead, onWrite, t + 1);
      ([GetIndex(group)] + rest.0, rest.1)
  }

  lemma UnfoldRead(pc: GI.Pc, group: string, id: string,
                   onRead: nat -> GI.ReadReply, onWrite: nat -> GI.WriteReply, t: nat)
    requires pc.Reading? || pc.Rechecking?
    ensures var rest := RunAppend(GI.AfterRead(pc, id, onRead(t)), group, id, onRead, onWrite, t + 1);
            RunAppend(pc, group, id, onRead, onWrite, t) == ([GetIndex(group)] + rest.0, rest.1)
  {
  }

  lemma UnfoldWrite(pc: GI.Pc, group: string, id: string,
                    onRead: nat -> GI.ReadReply, onWrite: nat -> GI.WriteReply, t: nat)
    requires pc.Writing?
    ensures var rest := RunAppend(GI.AfterWrite(pc, onWrite(t)), group, id, onRead, onWrite, t + 1);
            RunAppend(pc, group, id, onRead, onWrite, t) == ([RequestOf(pc, group)] + rest.0, rest.1)
  {
  }

  lemma UnfoldDone(o: GI.Outcome, group: string, id: string,
                   onRead: nat -> GI.ReadReply, onWrite: nat -> GI.WriteReply, t: nat)
    ensures RunAppend(GI.Done(o), group, id, onRead, onWrite, t) == ([], o)
  {
  }

  /** The ids a read of the index found; none when the key is missing. */
  function IdsRead(reply: GI.ReadReply): seq<string> {
    if reply.Found? then reply.ids else []
  }

  /** A write whose refusal sends the call back to reading: an Update refused for any
      reason, a Create refused because the index exists. */
  predicate Conflict(read: GI.ReadReply, write: GI.WriteReply) {
    write != GI.Acked && (read.Found? || write == GI.KeyExists)
  }

  /** The replies one AppendToGroup call may get, in the order of its requests. */
  datatype AppendReplies = AppendReplies(read1: GI.ReadReply, write1: GI.WriteReply, read2: GI.ReadReply,
                                         write2: GI.WriteReply, read3: GI.ReadReply)

  ghost function RepliesFrom(onRead: nat -> GI.ReadReply, onWrite: nat -> GI.WriteReply, t: nat): AppendReplies {
    AppendReplies(onRead(t), onWrite(t + 1), onRead(t + 2), onWrite(t + 3), onRead(t + 4))
  }

  predicate Writes1(x: AppendReplies) {
    !x.read1.ReadFailed? && |IdsRead(x.read1)| < 10_000
  }

  predicate Retries(x: AppendReplies) {
    Writes1(x) && Conflict(x.read1, x.write1)
  }

  predicate Writes2(x: AppendReplies, id: string) {
    Retries(x) && !x.read2.ReadFailed? && id !in IdsRead(x.read2) && |IdsRead(x.read2)| < 10_000
  }

  predicate Rereads(x: AppendReplies, id: string) {
    Writes2(x, id) && Conflict(x.read2, x.write2)
  }

  predicate FullWithout(reply: GI.ReadReply, id: string) {
    reply.Found? && id !in reply.ids && |reply.ids| >= 10_000
  }

  /** The conditional write after a read: a Create of a missing index, an Update of a
      found one at the revision read, in either case of the ids read and the new one. */
  ghost function WriteAfter(group: string, id: string, reply: GI.ReadReply): IndexRequest {
    if reply.Found? then UpdateIndex(group, reply.ids + [id], reply.revision) else CreateIndex(group, [id])
  }

  /** Requests and outcome of one call, reply by reply. */
  ghost function AppendResult(x: AppendReplies, group: string, id: string): (seq<IndexRequest>, GI.Outcome) {
    var get := GetIndex(group);
    var w1 := WriteAfter(group, id, x.read1);
    if x.read1.ReadFailed? then ([get], GI.Failed)
    else if !Writes1(x) then ([get], GI.GroupFull)
    else if x.write1 == GI.Acked then ([get, w1], GI.Appended)
    else if !Retries(x) then ([get, w1], GI.Failed)
    else
      var rest := RetryResult(x, group, id);
      ([get, w1] + rest.0, rest.1)
  }

  /** The same from the second read on. */
  ghost function RetryResult(x: AppendReplies, group: string, id: string): (seq<IndexRequest>, GI.Outcome)
    requires Retries(x)
  {
    var get, w2 := GetIndex(group), WriteAfter(group, id, x.read2);
    if x.read2.ReadFailed? then ([get], GI.Failed)
    else if id in IdsRead(x.read2) then ([get], GI.Appended)
    else if !Writes2(x, id) then ([get], GI.GroupFull)
    else if x.write2 == GI.Acked then ([get, w2], GI.Appended)
    else if !Rereads(x, id) then ([get, w2], GI.Failed)
    else if x.read3.Found? && id in x.read3.ids then ([get, w2, get], GI.Appended)
    else ([get, w2, get], if FullWithout(x.read3, id) then GI.GroupFull else GI.Failed)
  }

  /** The outcome of AppendToGroup from the replies alone. It succeeds exactly if a write
      was acknowledged or a later read lists the id; it reports a full group exactly if
      the first read found it full or a later one found it full without the id; in every
      other case it fails. */
  lemma AppendOutcome(group: string, id: string, onRead: nat -> GI.ReadReply, onWrite: nat -> GI.WriteReply, t: nat)
    requires ValidKey(group) && IsUuid(id)
    ensures var x := RepliesFrom(onRead, onWrite, t);
            var o := RunAppend(GI.Begin(group, id), group, id, onRead, onWrite, t).1;
            && (o == GI.Appended <==>
                  || (Writes1(x) && x.write1 == GI.Acked)
                  || (Retries(x) && x.read2.Found? && id in x.read2.ids)
                  || (Writes2(x, id) && x.write2 == GI.Acked)
                  || (Rereads(x, id) && x.read3.Found? && id in x.read3.ids))
            && (o == GI.GroupFull <==>
                  || (x.read1.Found? && |x.read1.ids| >= 10_000)
                  || (Retries(x) && FullWithout(x.read2, id))
                  || (Rereads(x, id) && FullWithout(x.read3, id)))
            && (o == GI.Failed <==>
                  || x.read1.ReadFailed?
                  || (Writes1(x) && x.write1 != GI.Acked && !Conflict(x.read1, x.write1))
                  || (Retries(x) && x.read2.ReadFailed?)
                  || (Writes2(x, id) && x.write2 != GI.Acked && !Conflict(x.read2, x.write2))
                  || (Rereads(x, id) && !FullWithout(x.read3, id) && !(x.read3.Found? && id in x.read3.ids)))
  {
    AppendSteps(group, id, onRead, onWrite, t);
  }

  /** A malformed group key or email id is refused without a request. */
  lemma InvalidIsRefused(group: string, id: string, onRead: nat -> GI.ReadReply, onWrite: nat -> GI.WriteReply, t: nat)
    requires !ValidKey(group) || !IsUuid(id)
    ensures RunAppend(GI.Begin(group, id), group, id, onRead, onWrite, t) == ([], GI.Failed)
  {
    hide ValidKey, IsUuid;
  }

  /** What AppendToGroup asks of the bucket, from the replies alone. */
  lemma AppendRequests(group: string, id: string, onRead: nat -> GI.ReadReply, onWrite: nat -> GI.WriteReply, t: nat)
    requires ValidKey(group) && IsUuid(id)
    ensures var x := RepliesFrom(onRead, onWrite, t);
            var asked := RunAppend(GI.Begin(group, id), group, id, onRead, onWrite, t).0;
            && |asked| == (if Rereads(x, id) then 5 else if Writes2(x, id) then 4
                           else if Retries(x) then 3 else if Writes1(x) then 2 else 1)
            && (forall k :: 0 <= k < |asked| && k % 2 == 0 ==> asked[k] == GetIndex(group))
            && (|asked| > 1 ==>
                  asked[1] == if x.read1.Found? then UpdateIndex(group, x.read1.ids + [id], x.read1.revision)
                              else CreateIndex(group, [id]))
            && (|asked| > 3 ==>
                  asked[3] == if x.read2.Found? then UpdateIndex(group, x.read2.ids + [id], x.read2.revision)
                              else CreateIndex(group, [id]))
  {
    AppendSteps(group, id, onRead, onWrite, t);
  }

  /** The program unfolded along its at most five replies. */
  lemma AppendSteps(group: string, id: string, onRead: nat -> GI.ReadReply, onWrite: nat -> GI.WriteReply, t: nat)
    requires ValidKey(group) && IsUuid(id)
    ensures RunAppend(GI.Begin(group, id), group, id, onRead, onWrite, t) ==
            AppendResult(RepliesFrom(onRead, onWrite, t), group, id)
  {
    hide RunAppend, ValidKey, IsUuid;
    forall o, u: nat ensures RunAppend(GI.Done(o), group, id, onRead, onWrite, u) == ([], o) {
      UnfoldDone(o, group, id, onRead, onWrite, u);
    }
    assert GI.Begin(group, id) == GI.Reading(0) by { BeginReads(group, id); }
    var x := RepliesFrom(onRead, onWrite, t);
    assert [] + [id] == [id];
    Listed(GetIndex(group), WriteAfter(group, id, x.read1), if Retries(x) then RetryResult(x, group, id).0 else []);
    UnfoldRead(GI.Reading(0), group, id, onRead, onWrite, t);
    var pc1 := GI.AfterRead(GI.Reading(0), id, onRead(t));
    if pc1.Writing? {
      UnfoldWrite(pc1, group, id, onRead, onWrite, t + 1);
      if GI.AfterWrite(pc1, onWrite(t + 1)).Reading? { RetrySteps(group, id, onRead, onWrite, t); }
    }
  }

  lemma RetrySteps(group: string, id: string, onRead: nat -> GI.ReadReply, onWrite: nat -> GI.WriteReply, t: nat)
    requires Retries(RepliesFrom(onRead, onWrite, t))
    ensures RunAppend(GI.Reading(1), group, id, onRead, onWrite, t + 2) ==
            RetryResult(RepliesFrom(onRead, onWrite, t), group, id)
  {
    hide RunAppend;
    forall o, u: nat ensures RunAppend(GI.Done(o), group, id, onRead, onWrite, u) == ([], o) {
      UnfoldDone(o, group, id, onRead, onWrite, u);
    }
    assert [] + [id] == [id];
    Listed(GetIndex(group), WriteAfter(group, id, onRead(t + 2)), []);
    UnfoldRead(GI.Reading(1), group, id, onRead, onWrite, t + 2);
    var pc1 := GI.AfterRead(GI.Reading(1), id, onRead(t + 2));
    if pc1.Writing? {
      UnfoldWrite(pc1, group, id, onRead, onWrite, t + 3);
      var pc2 := GI.AfterWrite(pc1, onWrite(t + 3));
      if pc2.Rechecking? { UnfoldRead(pc2, group, id, onRead, onWrite, t + 4); }
    }
  }

  lemma Listed<T>(a: T, b: T, rest: seq<T>)
    ensures [a] + [] == [a] && [a] + ([b] + []) == [a, b] && [a] + ([b] + ([a] + [])) == [a, b, a]
    ensures [a] + ([b] + rest) == [a, b] + rest
  {
  }

  lemma BeginReads(group: string, id: string)
    requires ValidKey(group) && IsUuid(id)
    ensures GI.Begin(group, id) == GI.Reading(0)
  {
  }

  ghost function RankUpdate<C>(pc: UP.Pc<C>): nat {
    match pc
    case Getting(a, _) => if a == 0 then 4 else 2
    case Updating(a, _, _, _) => if a == 0 then 3 else 1
    case Returned(_, _) => 0
  }

  ghost function RunUpdate<C>(pc: UP.Pc<C>, key: string, fn: UP.Callback<C>,
                              onGet: nat -> UP.GetReply, onUpdate: nat -> UP.UpdateReply, t: nat)
    : (r: (seq<RecordRequest>, UP.Pc<C>))
    ensures r.1.Returned?
    decreases RankUpdate(pc)
  {
    match pc
    case Returned(_, _) => ([], pc)
    case Updating(_, rec, last, _) =>
      var rest := RunUpdate(UP.AfterUpdate(pc, onUpdate(t)), key, fn, onGet, onUpdate, t + 1);
      ([UpdateRec(key, rec, last)] + rest.0, rest.1)
    case Getting(_, _) =>
      var rest := RunUpdate(UP.AfterGet(pc, fn, onGet(t)), key, fn, onGet, onUpdate, t + 1);
      ([GetRec(key)] + rest.0, rest.1)
  }

  class Store {
    const index: IndexBucket
    const records: RecordBucket

    constructor (index: IndexBucket, records: RecordBucket)
      ensures this.index == index && this.records == records
    {
      this.index, this.records := index, records;
    }

    /** Appends with optimistic concurrency: two attempts, then a final re-read. */
    method AppendToGroup(group: string, id: string) returns (outcome: GI.Outcome)
      modifies index
      ensures var run := RunAppend(GI.Begin(group, id), group, id, index.onRead, index.onWrite, old(index.clock));
              index.requests == old(index.requests) + run.0 && outcome == run.1
    {
      hide RunAppend;
      forall o, t: nat ensures RunAppend(GI.Done(o), group, id, index.onRead, index.onWrite, t) == ([], o) {
        UnfoldDone(o, group, id, index.onRead, index.onWrite, t);
      }
      if !ValidKey(group) { return GI.Failed; }
      if !IsUuid(id) { return GI.Failed; }
      // What the program still has to do from its current point.
      ghost var pc := GI.Reading(0);
      ghost var rest := RunAppend(pc, group, id, index.onRead, index.onWrite, index.clock);
      ghost var whole := rest;
      for attempt := 0 to 2
        invariant pc == if attempt == 2 then GI.Rechecking else GI.Reading(attempt)
        invariant rest == RunAppend(pc, group, id, index.onRead, index.onWrite, index.clock)
        invariant old(index.requests) + whole.0 == index.requests + rest.0 && whole.1 == rest.1
      {
        UnfoldRead(pc, group, id, index.onRead, index.onWrite, index.clock);
        var ids: seq<string> := [];
        var revision: Option<nat> := None;
        var entry := index.Get(group);
        pc := GI.AfterRead(pc, id, entry);
        rest := RunAppend(pc, group, id, index.onRead, index.onWrite, index.clock);
        match entry {
          case Found(value, r) => ids, revision := value, Some(r);
          case Missing =>
          case ReadFailed => return GI.Failed;
        }
        if attempt > 0 && Contains(ids, id) { return GI.Appended; }
        if |ids| >= GI.MAX_GROUP_EMAILS { return GI.GroupFull; }
        ids := ids + [id];
        assert pc == GI.Writing(attempt, ids, revision);
        UnfoldWrite(pc, group, id, index.onRead, index.onWrite, index.clock);
        var reply: GI.WriteReply;
        match revision {
          case None => reply := index.Create(group, ids);
          case Some(r) => reply := index.Update(group, ids, r);
        }
        pc := GI.AfterWrite(pc, reply);
        rest := RunAppend(pc, group, id, index.onRead, index.onWrite, index.clock);
        if revision.None? && reply != GI.Acked && reply != GI.KeyExists { return GI.Failed; }
        if reply == GI.Acked { return GI.Appended; }
      }
      UnfoldRead(pc, group, id, index.onRead, index.onWrite, index.clock);
      var entry := index.Get(group);
      if entry.Found? {
        if Contains(entry.ids, id) { return GI.Appended; }
        if |entry.ids| >= GI.MAX_GROUP_EMAILS { return GI.GroupFull; }
      }
      return GI.Failed;
    }

    /** slices.Contains */
    static predicate Contains(ids: seq<string>, id: string) {
      id in ids
    }

    method GroupExists(group: string) returns (e: SR.Existence)
      modifies index
      ensures !ValidKey(group) ==> e == SR.CheckFailed && index.requests == old(index.requests)
      ensures var reply := index.onRead(old(index.clock));
              ValidKey(group) ==>
                && (e == SR.Known <==> reply.Found? && |reply.ids| < 10_000)
                && (e == SR.Full <==> reply.Found? && |reply.ids| >= 10_000)
                && (e == SR.Unknown <==> reply.Missing?) && (e == SR.CheckFailed <==> reply.ReadFailed?)
      ensures ValidKey(group) ==> e == SR.GroupExists(index.onRead(old(index.clock))) &&
                                  index.requests == old(index.requests) + [GetIndex(group)] &&
                                  index.clock == old(index.clock) + 1
    {
      if !ValidKey(group) { return SR.CheckFailed; }
      var entry := index.Get(group);
      match entry {
        case Missing => e := SR.Unknown;
        case ReadFailed => e := SR.CheckFailed;
        case Found(ids, _) => if |ids| >= GI.MAX_GROUP_EMAILS { e := SR.Full; } else { e := SR.Known; }
      }
    }

    /** Blind write of a new record. */
    method WriteRecord(id: string, r: Rec) returns (ok: bool)
      modifies records
      ensures records.requests == old(records.requests) + if Encodable(r) && ValidKey(id) then [PutRec(id, r)] else []
      ensures ok <==> Encodable(r) && ValidKey(id) && records.onPut(old(records.clock))
    {
      if !Encodable(r) || !ValidKey(id) { return false; }
      ok := records.Put(id, r);
    }

    /** Read, callback, write at the revision read; one retry. Returns the variables
        the callback captured along with the result. */
    method UpdateRecord<C>(id: string, fn: UP.Callback<C>, initial: C) returns (result: UP.Result, cap: C)
      modifies records
      ensures !ValidKey(id) ==> result == UP.UpdateFailed && cap == initial && records.requests == old(records.requests)
      ensures ValidKey(id) ==>
                var run := RunUpdate(UP.Getting(0, initial), id, fn,
                                     records.onGet, records.onUpdate, old(records.clock));
                records.requests == old(records.requests) + run.0 && UP.Returned(result, cap) == run.1
    {
      cap := initial;
      if !ValidKey(id) { return UP.UpdateFailed, cap; }
      ghost var pc := UP.Getting(0, cap);
      ghost var rest := RunUpdate(pc, id, fn, records.onGet, records.onUpdate, records.clock);
      ghost var whole := rest;
      for attempt := 0 to 2
        invariant pc == if attempt == 2 then UP.Returned(UP.UpdateFailed, cap) else UP.Getting(attempt, cap)
        invariant rest == RunUpdate(pc, id, fn, records.onGet, records.onUpdate, records.clock)
        invariant old(records.requests) + whole.0 == records.requests + rest.0 && whole.1 == rest.1
      {
        var entry := records.Get(id);
        pc := UP.AfterGet(pc, fn, entry);
        rest := RunUpdate(pc, id, fn, records.onGet, records.onUpdate, records.clock);
        match entry {
          case GetFailed => return UP.UpdateFailed, cap;
          case Missing => return UP.NoRecord, cap;
          case Found(rec, revision) =>
            var (updated, captured) := fn(rec, cap);
            cap := captured;
            if !Encodable(updated) { return UP.RecordUnencodable, cap; }
            var reply := records.Update(id, updated, revision);
            pc := UP.AfterUpdate(pc, reply);
            rest := RunUpdate(pc, id, fn, records.onGet, records.onUpdate, records.clock);
            if reply == UP.Acked { return UP.Updated, cap; }
            if reply == UP.TooLarge { return UP.RecordTooLarge, cap; }
        }
      }
      return UP.UpdateFailed, cap;
    }
  }

  // ---- engagement_event_handler.go ----

  /** The callback's captured variables, and how often it ran (each run reads the clock anew). */
  datatype Vars = Vars(cap: UP.Captured, calls: nat)

  function ClockedCallback(m: UP.Message, now: nat -> int): UP.Callback<Vars>
    requires m.kind.Some? && forall i :: TimeOk(now(i))
  {
    (r: Rec, v: Vars) =>
      var step := UP.EventCallback(UP.Resolve(m, now(v.calls)))(r, v.cap);
      (step.0, Vars(step.1, v.calls + 1))
  }

  /** A callback that reads the clock at every run takes the same step as the callback
      of the event resolved at that moment, which is the step of the concurrent model. */
  lemma ClockedStep(m: UP.Message, now: nat -> int, attempt: nat, v: Vars, reply: UP.GetReply)
    requires m.kind.Some? && forall i :: TimeOk(now(i))
    ensures var a := UP.AfterGet(UP.Getting(attempt, v), ClockedCallback(m, now), reply);
            var b := UP.AfterGet(UP.Getting(attempt, v.cap), UP.EventCallback(UP.Resolve(m, now(v.calls))), reply);
            && a.cap.cap == b.cap && a.Returned? == b.Returned? && a.Updating? == b.Updating?
            && (a.Returned? ==> a.result == b.result)
            && (a.Updating? ==> a.attempt == b.attempt && a.rec == b.rec && a.last == b.last)
  {
    hide Apply, Encodable;
  }

  // ---- when a handler returns nil without an acknowledged write ----

  lemma UnfoldGet<C>(attempt: nat, cap: C, key: string, fn: UP.Callback<C>,
                     onGet: nat -> UP.GetReply, onUpdate: nat -> UP.UpdateReply, t: nat)
    ensures var pc := UP.Getting(attempt, cap);
            var rest := RunUpdate(UP.AfterGet(pc, fn, onGet(t)), key, fn, onGet, onUpdate, t + 1);
            RunUpdate(pc, key, fn, onGet, onUpdate, t) == ([GetRec(key)] + rest.0, rest.1)
  {
  }

  lemma UnfoldUpdate<C>(attempt: nat, rec: Rec, last: nat, cap: C, key: string, fn: UP.Callback<C>,
                        onGet: nat -> UP.GetReply, onUpdate: nat -> UP.UpdateReply, t: nat)
    ensures var pc := UP.Updating(attempt, rec, last, cap);
            var rest := RunUpdate(UP.AfterUpdate(pc, onUpdate(t)), key, fn, onGet, onUpdate, t + 1);
            RunUpdate(pc, key, fn, onGet, onUpdate, t) == ([UpdateRec(key, rec, last)] + rest.0, rest.1)
  {
  }

  lemma UnfoldReturned<C>(pc: UP.Pc<C>, key: string, fn: UP.Callback<C>,
                          onGet: nat -> UP.GetReply, onUpdate: nat -> UP.UpdateReply, t: nat)
    requires pc.Returned?
    ensures RunUpdate(pc, key, fn, onGet, onUpdate, t) == ([], pc)
  {
  }

  /** A read after which the callback's record is sent. */
  predicate Sends<C>(get: UP.GetReply, fn: UP.Callback<C>, cap: C) {
    get.Found? && Encodable(fn(get.rec, cap).0)
  }

  /** The requests one attempt makes: its read, then the callback's record at the revision read. */
  function Asked<C>(get: UP.GetReply, fn: UP.Callback<C>, cap: C, key: string): seq<RecordRequest> {
    if Sends(get, fn, cap) then [GetRec(key), UpdateRec(key, fn(get.rec, cap).0, get.revision)] else [GetRec(key)]
  }

  /** The captured variables after a read. */
  function CapAfter<C>(get: UP.GetReply, fn: UP.Callback<C>, cap: C): C {
    if get.Found? then fn(get.rec, cap).1 else cap
  }

  /** UpdateRecord from the replies alone: a second attempt follows exactly a refused
      first write; then each result has its own replies. */
  lemma UpdateOutcome<C>(cap: C, key: string, fn: UP.Callback<C>,
                         onGet: nat -> UP.GetReply, onUpdate: nat -> UP.UpdateReply, t: nat)
    ensures var r := RunUpdate(UP.Getting(0, cap), key, fn, onGet, onUpdate, t);
            var get1, update1, get2, update2 := onGet(t), onUpdate(t + 1), onGet(t + 2), onUpdate(t + 3);
            var cap1 := CapAfter(get1, fn, cap);
            var sent1 := Sends(get1, fn, cap);
            var retried := sent1 && update1 == UP.Refused;
            var sent2 := retried && Sends(get2, fn, cap1);
            && r.0 == Asked(get1, fn, cap, key) + (if retried then Asked(get2, fn, cap1, key) else [])
            && r.1.cap == (if retried then CapAfter(get2, fn, cap1) else cap1)
            && (r.1.result == UP.Updated <==> (sent1 && update1 == UP.Acked) || (sent2 && update2 == UP.Acked))
            && (r.1.result == UP.NoRecord <==> get1.Missing? || (retried && get2.Missing?))
            && (r.1.result == UP.RecordTooLarge <==>
                  (sent1 && update1 == UP.TooLarge) || (sent2 && update2 == UP.TooLarge))
            && (r.1.result == UP.RecordUnencodable <==>
                  (get1.Found? && !sent1) || (retried && get2.Found? && !sent2))
            && (r.1.result == UP.UpdateFailed <==>
                  get1.GetFailed? || (retried && get2.GetFailed?) || (sent2 && update2 == UP.Refused))
  {
    hide RunUpdate, Encodable;
    AttemptRuns(0, cap, key, fn, onGet, onUpdate, t);
    if Sends(onGet(t), fn, cap) && onUpdate(t + 1) == UP.Refused {
      AttemptRuns(1, CapAfter(onGet(t), fn, cap), key, fn, onGet, onUpdate, t + 2);
    }
    assert Asked(onGet(t), fn, cap, key) + [] == Asked(onGet(t), fn, cap, key);
  }

  /** One attempt: its requests, then its end or the next one. */
  lemma AttemptRuns<C>(attempt: nat, cap: C, key: string, fn: UP.Callback<C>,
                       onGet: nat -> UP.GetReply, onUpdate: nat -> UP.UpdateReply, t: nat)
    ensures var get, update, after := onGet(t), onUpdate(t + 1), CapAfter(onGet(t), fn, cap);
            var r := RunUpdate(UP.Getting(attempt, cap), key, fn, onGet, onUpdate, t);
            var asked := Asked(get, fn, cap, key);
            if Sends(get, fn, cap) then
              match update
              case Acked => r == (asked, UP.Returned(UP.Updated, after))
              case TooLarge => r == (asked, UP.Returned(UP.RecordTooLarge, after))
              case Refused =>
                if attempt == 0 then
                  var rest := RunUpdate(UP.Getting(1, after), key, fn, onGet, onUpdate, t + 2);
                  r == (asked + rest.0, rest.1)
                else r == (asked, UP.Returned(UP.UpdateFailed, after))
            else if get.Found? then r == (asked, UP.Returned(UP.RecordUnencodable, after))
            else r == (asked, UP.Returned(if get.Missing? then UP.NoRecord else UP.UpdateFailed, after))
  {
    hide RunUpdate, Encodable;
    UnfoldGet(attempt, cap, key, fn, onGet, onUpdate, t);
    var pc := UP.AfterGet(UP.Getting(attempt, cap), fn, onGet(t));
    if pc.Updating? {
      UnfoldUpdate(attempt, pc.rec, pc.last, pc.cap, key, fn, onGet, onUpdate, t + 1);
      var next := UP.AfterUpdate(pc, onUpdate(t + 1));
      var get, update := GetRec(key), UpdateRec(key, pc.rec, pc.last);
      if next.Returned? {
        UnfoldReturned(next, key, fn, onGet, onUpdate, t + 2);
        assert [get] + ([update] + []) == [get, update];
      } else {
        var rest := RunUpdate(next, key, fn, onGet, onUpdate, t + 2).0;
        assert [get] + ([update] + rest) == [get, update] + rest;
      }
    } else {
      UnfoldReturned(pc, key, fn, onGet, onUpdate, t + 1);
      assert [GetRec(key)] + [] == [GetRec(key)];
    }
  }

  // ---- Handle from the replies alone ----

  /** A read after which this attempt's event is applied to the record and can be stored. */
  predicate AppliesTo(get: UP.GetReply, ev: Event) {
    get.Found? && Apply(get.rec, ev).applied && Encodable(Apply(get.rec, ev).rec)
  }

  /** A read after which the attempt can neither write nor retry. */
  predicate EndsUnwritten(get: UP.GetReply, update: UP.UpdateReply, ev: Event) {
    get.Missing? || (get.Found? && (!Encodable(Apply(get.rec, ev).rec) || update == UP.TooLarge))
  }

  /** The end of one Handle call whose first request falls at time t. */
  ghost function HandleRun(m: UP.Message, now: nat -> int, key: string,
                           onGet: nat -> UP.GetReply, onUpdate: nat -> UP.UpdateReply, t: nat)
    : (r: (seq<RecordRequest>, UP.Pc<Vars>))
    requires m.kind.Some? && forall i :: TimeOk(now(i))
    ensures r.1.Returned?
  {
    RunUpdate(UP.Getting(0, Vars(UP.NOTHING, 0)), key, ClockedCallback(m, now), onGet, onUpdate, t)
  }

  lemma ClockedResult(m: UP.Message, now: nat -> int, r: Rec, v: Vars)
    requires m.kind.Some? && forall i :: TimeOk(now(i))
    ensures var ev := UP.Resolve(m, now(v.calls));
            ClockedCallback(m, now)(r, v) == (Apply(r, ev).rec, Vars(UP.Capture(v.cap, Apply(r, ev), ev), v.calls + 1))
  {
    var ev := UP.Resolve(m, now(v.calls));
    assert UP.EventCallback(ev)(r, v.cap) == (Apply(r, ev).rec, UP.Capture(v.cap, Apply(r, ev), ev));
  }

  /** A read that shows a record this event can be stored in. */
  predicate Storable(get: UP.GetReply, ev: Event) {
    get.Found? && Encodable(Apply(get.rec, ev).rec)
  }

  /** The write that follows such a read. */
  function WriteOf(key: string, get: UP.GetReply, ev: Event): RecordRequest
    requires get.Found?
  {
    UpdateRec(key, Apply(get.rec, ev).rec, get.revision)
  }

  /** The requests of Handle and when it fails, replies alone: it writes the record read
      with the event applied, at the revision read; it returns an error exactly if a
      read failed or the second write was refused too. */
  lemma HandleOutcome(m: UP.Message, now: nat -> int, key: string,
                      onGet: nat -> UP.GetReply, onUpdate: nat -> UP.UpdateReply, t: nat)
    requires m.kind.Some? && forall i :: TimeOk(now(i))
    ensures var r := HandleRun(m, now, key, onGet, onUpdate, t);
            var get1, update1, get2, update2 := onGet(t), onUpdate(t + 1), onGet(t + 2), onUpdate(t + 3);
            var ev0, ev1 := UP.Resolve(m, now(0)), UP.Resolve(m, now(1));
            var retried := Storable(get1, ev0) && update1 == UP.Refused;
            && r.0 == (if !Storable(get1, ev0) then [GetRec(key)]
                       else if !retried then [GetRec(key), WriteOf(key, get1, ev0)]
                       else if !Storable(get2, ev1) then [GetRec(key), WriteOf(key, get1, ev0), GetRec(key)]
                       else [GetRec(key), WriteOf(key, get1, ev0), GetRec(key), WriteOf(key, get2, ev1)])
            && (!UP.HandledOk(r.1.result) <==>
                  || get1.GetFailed? || (retried && get2.GetFailed?)
                  || (retried && Storable(get2, ev1) && update2 == UP.Refused))
            && (r.1.result == UP.Updated <==>
                  || (Storable(get1, ev0) && update1 == UP.Acked)
                  || (retried && Storable(get2, ev1) && update2 == UP.Acked))
            && (r.1.result == UP.NoRecord <==> get1.Missing? || (retried && get2.Missing?))
            && r.1.cap.cap ==
               (if retried && get2.Found? then
                  UP.Capture(UP.Capture(UP.NOTHING, Apply(get1.rec, ev0), ev0), Apply(get2.rec, ev1), ev1)
                else if get1.Found? then UP.Capture(UP.NOTHING, Apply(get1.rec, ev0), ev0) else UP.NOTHING)
  {
    hide RunUpdate, Apply, Encodable, UP.Capture, ClockedCallback, UP.Resolve;
    var v, fn := Vars(UP.NOTHING, 0), ClockedCallback(m, now);
    UpdateOutcome(v, key, fn, onGet, onUpdate, t);
    if onGet(t).Found? { ClockedResult(m, now, onGet(t).rec, v); }
    if onGet(t + 2).Found? { ClockedResult(m, now, onGet(t + 2).rec, CapAfter(onGet(t), fn, v)); }
  }

  /** Handle publishes exactly if a write that changed the record was acknowledged, or
      such a write was refused and the retry was told that the record is missing. */
  lemma PublishesExactly(m: UP.Message, now: nat -> int, key: string,
                         onGet: nat -> UP.GetReply, onUpdate: nat -> UP.UpdateReply, t: nat)
    requires m.kind.Some? && forall i :: TimeOk(now(i))
    ensures var r := HandleRun(m, now, key, onGet, onUpdate, t).1;
            var get1, update1, get2, update2 := onGet(t), onUpdate(t + 1), onGet(t + 2), onUpdate(t + 3);
            var ev0, ev1 := UP.Resolve(m, now(0)), UP.Resolve(m, now(1));
            var retried := Storable(get1, ev0) && update1 == UP.Refused;
            UP.Publishes(r.result, r.cap.cap) <==>
            || (AppliesTo(get1, ev0) && update1 == UP.Acked)
            || (retried && AppliesTo(get2, ev1) && update2 == UP.Acked)
            || (AppliesTo(get1, ev0) && update1 == UP.Refused && get2.Missing?)
  {
    hide RunUpdate, Apply, Encodable, HandleRun, UP.Resolve;
    HandleOutcome(m, now, key, onGet, onUpdate, t);
  }

  /** Handle publishes an event no acknowledged write holds exactly if the first attempt
      found the record and changed it, its write was refused, and the retry was told that
      the record is missing. */
  lemma PublishesUnacknowledged(m: UP.Message, now: nat -> int, key: string,
                                onGet: nat -> UP.GetReply, onUpdate: nat -> UP.UpdateReply, t: nat)
    requires m.kind.Some? && forall i :: TimeOk(now(i))
    ensures var r := HandleRun(m, now, key, onGet, onUpdate, t).1;
            (UP.Publishes(r.result, r.cap.cap) && r.result != UP.Updated) <==>
            (AppliesTo(onGet(t), UP.Resolve(m, now(0))) && onUpdate(t + 1) == UP.Refused && onGet(t + 2) == UP.Missing)
  {
    hide RunUpdate, Apply, Encodable, HandleRun, UP.Resolve;
    HandleOutcome(m, now, key, onGet, onUpdate, t);
  }

  /** Handle returns nil without an acknowledged write, so that the message is deleted,
      exactly if its last attempt was told that the record is missing, or could not
      encode the record, or had its write rejected as too large. */
  lemma NilWithoutWrite(m: UP.Message, now: nat -> int, key: string,
                        onGet: nat -> UP.GetReply, onUpdate: nat -> UP.UpdateReply, t: nat)
    requires m.kind.Some? && forall i :: TimeOk(now(i))
    ensures var r := HandleRun(m, now, key, onGet, onUpdate, t).1;
            var ev0, ev1 := UP.Resolve(m, now(0)), UP.Resolve(m, now(1));
            (UP.HandledOk(r.result) && r.result != UP.Updated) <==>
            || EndsUnwritten(onGet(t), onUpdate(t + 1), ev0)
            || (onGet(t).Found? && onUpdate(t + 1) == UP.Refused && EndsUnwritten(onGet(t + 2), onUpdate(t + 3), ev1))
  {
    hide RunUpdate, Apply, Encodable, HandleRun, UP.Resolve;
    HandleOutcome(m, now, key, onGet, onUpdate, t);
  }

  /** What Handle publishes is what one of its own writes asks to store. */
  lemma PublishesItsWrite(m: UP.Message, now: nat -> int, key: string,
                          onGet: nat -> UP.GetReply, onUpdate: nat -> UP.UpdateReply, t: nat)
    requires m.kind.Some? && forall i :: TimeOk(now(i))
    ensures var r := HandleRun(m, now, key, onGet, onUpdate, t);
            UP.Publishes(r.1.result, r.1.cap.cap) ==>
              exists i, k: nat :: 0 <= i < |r.0| && k < 2 && r.0[i].UpdateRec? && r.0[i].key == key &&
                UP.Reports(UP.PublicationOf(key, m, r.1.cap.cap), key, m, r.0[i].rec, UP.Resolve(m, now(k)).at)
  {
    hide RunUpdate, Apply, Encodable, HandleRun, UP.Resolve, UP.Capture, UP.Reports, UP.PublicationOf;
    HandleOutcome(m, now, key, onGet, onUpdate, t);
    PublishesExactly(m, now, key, onGet, onUpdate, t);
    var r := HandleRun(m, now, key, onGet, onUpdate, t);
    var ev0, ev1 := UP.Resolve(m, now(0)), UP.Resolve(m, now(1));
    if UP.Publishes(r.1.result, r.1.cap.cap) {
      var before := if onGet(t).Found? then UP.Capture(UP.NOTHING, Apply(onGet(t).rec, ev0), ev0) else UP.NOTHING;
      if r.1.result == UP.Updated && onUpdate(t + 1) == UP.Refused {
        UP.CaptureReports(m, now(1), before, onGet(t + 2).rec, key);
        assert r.0[3].rec == Apply(onGet(t + 2).rec, ev1).rec;
      } else {
        UP.CaptureReports(m, now(0), UP.NOTHING, onGet(t).rec, key);
        assert r.0[1].rec == Apply(onGet(t).rec, ev0).rec;
      }
    }
  }

  class EngagementEventHandler {
    const store: Store

    constructor (store: Store)
      ensures this.store == store
    {
      this.store := store;
    }

    /** ok: Handle returned nil, so the message is deleted. The tracking id is used in
        lower case, like the id the send recorded. */
    method Handle(trackingId: string, m: UP.Message, now: nat -> int)
      returns (ok: bool, published: Option<UP.Publication>)
      requires forall i :: TimeOk(now(i))
      modifies store.records
      ensures m.kind.None? || !IsUuid(trackingId) ==>
                ok && published == None && store.records.requests == old(store.records.requests)
      ensures m.kind.Some? && IsUuid(trackingId) ==>
                var emailId := ToLower(trackingId);
                var run := RunUpdate(UP.Getting(0, Vars(UP.NOTHING, 0)), emailId, ClockedCallback(m, now),
                                     store.records.onGet, store.records.onUpdate, old(store.records.clock));
                var cap := run.1.cap.cap;
                && store.records.requests == old(store.records.requests) + run.0
                && ok == UP.HandledOk(run.1.result)
                && published == if UP.Publishes(run.1.result, cap)
                                then Some(UP.PublicationOf(emailId, m, cap)) else None
      // A publication reports a record this very call asked to store, and the event's own time.
      ensures published.Some? ==>
                exists i, k: nat :: |old(store.records.requests)| <= i < |store.records.requests| && k < 2 &&
                  store.records.requests[i].UpdateRec? && store.records.requests[i].key == ToLower(trackingId) &&
                  UP.Reports(published.value, ToLower(trackingId), m, store.records.requests[i].rec,
                             ParseTimestamp(m.stamp, now(k)))
    {
      if m.kind.None? || !IsUuid(trackingId) { return true, None; }
      var emailId := ToLower(trackingId);
      LowerUuid(trackingId);
      IdentifiersAreKeys(emailId);
      var result, vars := store.UpdateRecord(emailId, ClockedCallback(m, now), Vars(UP.NOTHING, 0));
      ghost var asked := RunUpdate(UP.Getting(0, Vars(UP.NOTHING, 0)), emailId, ClockedCallback(m, now),
                                   store.records.onGet, store.records.onUpdate, old(store.records.clock)).0;
      PublishesItsWrite(m, now, emailId, store.records.onGet, store.records.onUpdate, old(store.records.clock));
      if UP.Publishes(result, vars.cap) {
        ghost var i, k: nat :| 0 <= i < |asked| && k < 2 && asked[i].UpdateRec? && asked[i].key == emailId &&
                         UP.Reports(UP.PublicationOf(emailId, m, vars.cap), emailId, m, asked[i].rec,
                                    UP.Resolve(m, now(k)).at);
        assert store.records.requests[|old(store.records.requests)| + i] == asked[i];
      }
      if result == UP.RecordTooLarge || result == UP.RecordUnencodable { return true, None; }
      if result == UP.UpdateFailed { return false, None; }
      if !vars.cap.applied { return true, None; }
      match m.kind.value {
        case Delivery => published := Some(UP.Delivered(emailId, vars.cap.at));
        case Open => published := Some(UP.Opened(emailId, vars.cap.openCount, vars.cap.at));
        case Click => published := Some(UP.LinkClicked(emailId, m.id, m.link, vars.cap.clickCount, vars.cap.at));
        case Bounce => published := Some(UP.SendFailed(emailId, true, vars.cap.at));
        case Complaint => published := Some(UP.SendFailed(emailId, false, vars.cap.at));
      }
      return true, published;
    }
  }

  // ---- send_email_handler.go ----

  /** A decoded request. */
  datatype SendRequest = SendRequest(to: string, subject: string, html: string, text: string, groupId: string,
                                     sender: string, replyTo: string, displayName: string)
  datatype SendReply = SendError(reason: string) | SendOk(emailId: string, groupId: string)

  /** What needs an address parser: whether a parsed mailbox or local part is too long,
      whether the recipient allowlist admits an address, and the sender and reply-to checks. */
  datatype AddressVerdict = Allowed | Malformed | Forbidden
  datatype Policy = Policy(overlong: string -> bool, recipient: string -> bool,
                           sender: string -> AddressVerdict, replyTo: string -> AddressVerdict)

  const MAX_FROM_DISPLAY_NAME := 256

  predicate AddressTooLong(p: Policy, a: string) {
    RawLen(a) > MAX_ADDRESS_FIELD || p.overlong(a)
  }

  /** The answer of the checks before any mail or store access: in this order a payload
      that does not decode, an empty field, an oversized one, a malformed handle, a
      recipient outside the allowlist, a bad sender, a bad reply-to; None: all pass. */
  ghost predicate Screens(payload: Option<SendRequest>, p: Policy, answer: Option<SendReply>) {
    match payload
    case None => answer == Some(SendError("invalid request payload"))
    case Some(req) =>
      if req.to == "" || req.subject == "" || req.html == "" || req.text == "" then
        answer == Some(SendError("to, subject, html, and text are required"))
      else if AddressTooLong(p, req.to) then answer == Some(SendError("to address too long"))
      else if AddressTooLong(p, req.sender) then answer == Some(SendError("from address too long"))
      else if AddressTooLong(p, req.replyTo) then answer == Some(SendError("reply_to address too long"))
      else if RawLen(req.subject) > MAX_SUBJECT then answer == Some(SendError("subject too long"))
      else if RawLen(req.displayName) > MAX_FROM_DISPLAY_NAME then
        answer == Some(SendError("from_display_name too long"))
      else if req.groupId != "" && !IsGroupHandle(req.groupId) then answer == Some(SendError("invalid group_id"))
      else if !p.recipient(req.to) then answer == Some(SendOk("", ""))
      else if req.sender != "" && p.sender(req.sender) != Allowed then
        answer == Some(SendError(if p.sender(req.sender) == Malformed then "invalid from address"
                                 else "from address domain not allowed"))
      else if req.replyTo != "" && p.replyTo(req.replyTo) != Allowed then
        answer == Some(SendError(if p.replyTo(req.replyTo) == Malformed then "invalid reply_to address"
                                 else "reply_to address domain not allowed"))
      else answer == None
  }

  /** A request that passes the checks is recorded within the bounds of the byte budget. */
  lemma ScreenedFits(req: SendRequest, p: Policy, id: string, group: string, now: int)
    requires Screens(Some(req), p, None) && IsUuid(id) && IsGroupHandle(group) && TimeOk(now)
    ensures HeaderOk(Header(group, id, req.to, req.subject, now))
  {
  }

  lemma ScreenedHandle(req: SendRequest, p: Policy)
    requires Screens(Some(req), p, None)
    ensures req.groupId == "" || IsGroupHandle(req.groupId)
  {
  }

  lemma ScreenedDecodes(payload: Option<SendRequest>, p: Policy)
    requires Screens(payload, p, None)
    ensures payload.Some?
  {
  }

  /** A request passes exactly if everything about it is acceptable. */
  lemma PassesExactly(payload: Option<SendRequest>, p: Policy)
    ensures Screens(payload, p, None) <==>
            && payload.Some?
            && var req := payload.value;
               && req.to != "" && req.subject != "" && req.html != "" && req.text != ""
               && RawLen(req.to) <= 512 && !p.overlong(req.to)
               && RawLen(req.sender) <= 512 && !p.overlong(req.sender)
               && RawLen(req.replyTo) <= 512 && !p.overlong(req.replyTo)
               && RawLen(req.subject) <= 998 && RawLen(req.displayName) <= 256
               && (req.groupId == "" || IsGroupHandle(req.groupId))
               && p.recipient(req.to)
               && (req.sender == "" || p.sender(req.sender) == Allowed)
               && (req.replyTo == "" || p.replyTo(req.replyTo) == Allowed)
  {
  }

  class SendEmailHandler {
    const store: Store

    constructor (store: Store)
      ensures this.store == store
    {
      this.store := store;
    }

    /** Index first, then the record; false when the handle must be withheld. */
    method WriteTrackingRecords(id: string, group: string, newGroup: bool, req: SendRequest, now: int)
      returns (recorded: bool)
      requires IsUuid(id) && IsGroupHandle(group) && TimeOk(now) && store.index as object != store.records
      modifies store.index, store.records
      ensures var run := RunAppend(GI.Begin(group, id), group, id,
                                    store.index.onRead, store.index.onWrite, old(store.index.clock));
              && store.index.requests == old(store.index.requests) + run.0
              && (recorded <==> run.1 == GI.Appended || (run.1 == GI.Failed && !newGroup))
      ensures store.records.requests == old(store.records.requests) +
                if recorded then [PutRec(id, NewRec(Header(group, id, req.to, req.subject, now)))] else []
    {
      var outcome := store.AppendToGroup(group, id);
      match outcome {
        case Appended =>
        case GroupFull => return false;
        case Failed => if newGroup { return false; }
      }
      IdentifiersAreKeys(id);
      var written := store.WriteRecord(id, NewRec(Header(group, id, req.to, req.subject, now)));
      return true;
    }

    /** The checks that need neither sender nor store. */
    method Screen(payload: Option<SendRequest>, p: Policy) returns (answer: Option<SendReply>)
      ensures Screens(payload, p, answer)
    {
      if payload.None? { return Some(SendError("invalid request payload")); }
      var req := payload.value;
      if req.to == "" || req.subject == "" || req.html == "" || req.text == "" {
        return Some(SendError("to, subject, html, and text are required"));
      }
      if AddressTooLong(p, req.to) { return Some(SendError("to address too long")); }
      if AddressTooLong(p, req.sender) { return Some(SendError("from address too long")); }
      if AddressTooLong(p, req.replyTo) { return Some(SendError("reply_to address too long")); }
      if RawLen(req.subject) > MAX_SUBJECT { return Some(SendError("subject too long")); }
      if RawLen(req.displayName) > MAX_FROM_DISPLAY_NAME { return Some(SendError("from_display_name too long")); }
      if req.groupId != "" && !IsGroupHandle(req.groupId) { return Some(SendError("invalid group_id")); }
      if !p.recipient(req.to) { return Some(SendOk("", "")); }
      if req.sender != "" {
        match p.sender(req.sender) {
          case Allowed =>
          case Malformed => return Some(SendError("invalid from address"));
          case Forbidden => return Some(SendError("from address domain not allowed"));
        }
      }
      if req.replyTo != "" {
        match p.replyTo(req.replyTo) {
          case Allowed =>
          case Malformed => return Some(SendError("invalid reply_to address"));
          case Forbidden => return Some(SendError("reply_to address domain not allowed"));
        }
      }
      return None;
    }

    /** sent is what the mail sender answers when it is called; screened is the outcome of
        the checks before it. */
    method HandleData(payload: Option<SendRequest>, p: Policy, sent: SR.Sent, now: int)
      returns (reply: SendReply, ghost screened: Option<SendReply>)
      requires sent.Mailed? ==> IsUuid(sent.id) && IsGroupHandle(sent.handle)
      requires TimeOk(now) && store.index as object != store.records
      modifies store.index, store.records
      ensures Screens(payload, p, screened)
      // A request that fails a check gets that check's answer, and nothing is requested of the store.
      ensures screened.Some? ==>
                && reply == screened.value
                && store.records.requests == old(store.records.requests)
                && store.index.requests == old(store.index.requests)
      // A supplied handle that is not a known group with room stops the request before any mail or write.
      ensures screened.None? && payload.value.groupId != "" ==>
                var e := SR.GroupExists(store.index.onRead(old(store.index.clock)));
                e != SR.Known ==>
                  && reply == SendError(if e == SR.Full then "group is full"
                                        else if e == SR.CheckFailed then "internal error" else "invalid group_id")
                  && store.records.requests == old(store.records.requests)
                  && store.index.requests == old(store.index.requests) + [GetIndex(payload.value.groupId)]
      // Otherwise the mail is sent; without an email id nothing is recorded, with one the
      // append program runs before the record write.
      ensures screened.None? &&
              (payload.value.groupId == "" ||
               SR.GroupExists(store.index.onRead(old(store.index.clock))) == SR.Known) ==>
                var req := payload.value;
                var asked := if req.groupId == "" then [] else [GetIndex(req.groupId)];
                match sent
                case Refused(throttled) =>
                  && reply == SendError(if throttled then "sending throttled" else "email delivery failed")
                  && store.records.requests == old(store.records.requests)
                  && store.index.requests == old(store.index.requests) + asked
                case Disabled =>
                  && reply == SendOk("", "")
                  && store.records.requests == old(store.records.requests)
                  && store.index.requests == old(store.index.requests) + asked
                case Mailed(id, handle) =>
                  var isNew := req.groupId == "";
                  var group := if isNew then handle else req.groupId;
                  var run := RunAppend(GI.Begin(group, id), group, id, store.index.onRead, store.index.onWrite,
                                       old(store.index.clock) + |asked|);
                  var recorded := run.1 == GI.Appended || (run.1 == GI.Failed && !isNew);
                  && reply == SendOk(id, if recorded then group else "")
                  && store.index.requests == old(store.index.requests) + asked + run.0
                  && store.records.requests == old(store.records.requests) +
                     if recorded then [PutRec(id, NewRec(Header(group, id, req.to, req.subject, now)))] else []
      // Every record written is within the bounds the byte budget starts from.
      ensures old(store.records.requests) <= store.records.requests
      ensures forall i :: |old(store.records.requests)| <= i < |store.records.requests| ==>
                store.records.requests[i].PutRec? &&
                exists h :: HeaderOk(h) && store.records.requests[i].rec == NewRec(h)
    {
      hide RunAppend, SR.GroupExists, Screens, HeaderOk, NewRec;
      var answer := Screen(payload, p);
      screened := answer;
      if answer.Some? { return answer.value, answer; }
      assert payload.Some? by { ScreenedDecodes(payload, p); }
      var req := payload.value;
      if req.groupId != "" {
        ScreenedHandle(req, p);
        IdentifiersAreKeys(req.groupId);
        var e := store.GroupExists(req.groupId);
        match e {
          case Known =>
          case Full => return SendError("group is full"), None;
          case CheckFailed => return SendError("internal error"), None;
          case Unknown => return SendError("invalid group_id"), None;
        }
      }
      match sent {
        case Refused(throttled) =>
          return SendError(if throttled then "sending throttled" else "email delivery failed"), None;
        case Disabled => return SendOk("", ""), None;
        case Mailed(id, handle) =>
          var group := if req.groupId == "" then handle else req.groupId;
          var recorded := WriteTrackingRecords(id, group, req.groupId == "", req, now);
          ScreenedFits(req, p, id, group, now);
          return SendOk(id, if recorded then group else ""), None;
      }
    }
  }
}
