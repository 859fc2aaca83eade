/** The in-memory store: one lock, plain maps, one record at a time. It is the
    simple reference the KV-backed store must agree with. */
module TrackingStoreMock {
  import opened Wire
  import opened Record
  import opened Scan
  import GI = GroupIndex
  import UP = UpdateProgram

  datatype StoreError = GroupIsFull | NoGroup | BadRange | Expired | NotEncodable | Injected

  class TrackingStore {
    var records: map<string, Rec>
    var groups: map<string, seq<string>>
    var writeErr: bool
    var appendErr: bool
    var getErrFor: set<string>
    var groupErrFor: set<string>

    constructor ()
      ensures records == map[] && groups == map[] && !writeErr && !appendErr && getErrFor == {} && groupErrFor == {}
    {
      records, groups, writeErr, appendErr, getErrFor, groupErrFor := map[], map[], false, false, {}, {};
    }

    method WriteRecord(id: string, r: Rec) returns (err: Option<StoreError>)
      modifies this`records
      ensures records == if writeErr then old(records) else old(records)[id := r]
      ensures err == if writeErr then Some(Injected) else None
    {
      if writeErr { return Some(Injected); }
      records := records[id := r];
      return None;
    }

    /** One atomic append, refused exactly when the group is full. */
    method AppendToGroup(group: string, id: string) returns (err: Option<StoreError>)
      modifies this`groups
      ensures !appendErr ==> groups == GI.AtomicAppend(old(groups), group, id)
      ensures !appendErr ==>
                (err == Some(GroupIsFull) <==> group in old(groups) && |old(groups)[group]| >= GI.MAX_GROUP_EMAILS)
      ensures !appendErr && err != Some(GroupIsFull) ==> err == None && group in groups && id in groups[group]
      ensures appendErr ==> err == Some(Injected) && groups == old(groups)
    {
      if appendErr { return Some(Injected); }
      var ids := if group in groups then groups[group] else [];
      if |ids| >= GI.MAX_GROUP_EMAILS { return Some(GroupIsFull); }
      groups := groups[group := ids + [id]];
      assert (ids + [id])[|ids|] == id;
      return None;
    }

    method GroupExists(group: string) returns (known: bool, err: Option<StoreError>)
      ensures group in groupErrFor ==> !known && err == Some(Injected)
      ensures group !in groupErrFor ==> known == (group in groups)
      ensures group !in groupErrFor ==>
                err == if group in groups && |groups[group]| >= GI.MAX_GROUP_EMAILS then Some(GroupIsFull) else None
    {
      if group in groupErrFor { return false, Some(Injected); }
      known := group in groups;
      if known && |groups[group]| >= GI.MAX_GROUP_EMAILS { return true, Some(GroupIsFull); }
      return known, None;
    }

    function Lookup(id: string): (r: Read)
      reads this
      ensures id in records && id !in getErrFor ==> r == Got(records[id])
      ensures id !in records || id in getErrFor ==> r == Unreadable
    {
      if id !in getErrFor && id in records then Got(records[id]) else Unreadable
    }

    /** Read-modify-write under the lock: one step of the concurrent record model. */
    method UpdateRecord<C>(id: string, fn: UP.Callback<C>, initial: C) returns (err: Option<StoreError>, cap: C)
      modifies this`records
      ensures id in getErrFor ==> err == Some(Injected) && records == old(records) && cap == initial
      ensures id !in getErrFor && id !in old(records) ==> err == None && records == old(records) && cap == initial
      ensures id !in getErrFor && id in old(records) ==>
                var (r, c) := fn(old(records)[id], initial);
                && cap == c
                && if Encodable(r) then err == None && records == old(records)[id := r]
                   else err == Some(NotEncodable) && records == old(records)
    {
      cap := initial;
      if id in getErrFor { return Some(Injected), cap; }
      if id !in records { return None, cap; }
      var (r, c) := fn(records[id], initial);
      cap := c;
      if !Encodable(r) { return Some(NotEncodable), cap; }
      records := records[id := r];
      return None, cap;
    }

    /** The reads of this store, at whatever position they happen. */
    function Reader(): (read: Reads)
      reads this
      ensures forall k, id :: read(k, id) == if id in records && id !in getErrFor then Got(records[id]) else Unreadable
    {
      var g, e := records, getErrFor;
      (k: nat, id: string) => if id !in e && id in g then Got(g[id]) else Unreadable
    }

    /** The scan, one record at a time. */
    method ScanGroupRecords<S>(ctx: Context, group: string, offset: int, limit: int, fn: Visit<S>, s0: S)
      returns (total: nat, err: Option<StoreError>, s: S)
      modifies ctx
      ensures err == None ==>
                && group in groups && offset >= 0 && limit > 0 && total == |groups[group]|
                && var window := Window(groups[group], offset, Min(limit, GI.MAX_GROUP_EMAILS));
                   s == Feed(fn, s0, Readable(window, group, Reader(), |window|)).state
      ensures err == None || err == Some(Expired) ==>
                ctx.checks > old(ctx.checks) && (ctx.DoneAt(ctx.checks - 1) <==> err == Some(Expired))
      ensures err == Some(Expired) ==>
                && group in groups && offset >= 0 && limit > 0
                && var window := Window(groups[group], offset, Min(limit, GI.MAX_GROUP_EMAILS));
                   exists n :: 0 <= n <= |window| && s == Feed(fn, s0, Readable(window, group, Reader(), n)).state
      ensures err != None && err != Some(Expired) ==> s == s0
      ensures ctx.liveChecks == None ==>
                err == if group in groupErrFor then Some(Injected) else if offset < 0 || limit <= 0 then Some(BadRange)
                       else if group !in groups then Some(NoGroup) else None
    {
      hide Readable, Feed;
      s, total := s0, 0;
      if group in groupErrFor { return 0, Some(Injected), s; }
      if offset < 0 || limit <= 0 { return 0, Some(BadRange), s; }
      if group !in groups { return 0, Some(NoGroup), s; }
      var ids := groups[group];
      total := |ids|;
      var window := Window(ids, offset, Min(limit, GI.MAX_GROUP_EMAILS));
      NothingRead(fn, s0, window, group, Reader());
      var done := ctx.Err();
      assert s == Feed(fn, s0, Readable(window, group, Reader(), 0)).state;
      if done { return total, Some(Expired), s; }
      if offset >= total { return total, None, s; }
      var stopped := false;
      for k := 0 to |window|
        invariant Feed(fn, s0, Readable(window, group, Reader(), k)) == Fed(s, false)
        invariant ctx.checks > old(ctx.checks)
      {
        done := ctx.Err();
        assert s == Feed(fn, s0, Readable(window, group, Reader(), k)).state;
        if done { return total, Some(Expired), s; }
        FeedReadable(fn, s0, window, group, Reader(), k);
        var r := Lookup(window[k]);
        if r.Got? && r.rec.header.groupId == group {
          var (t, more) := fn(s, r.rec);
          s := t;
          if !more {
            FeedReadableStopped(fn, s0, window, group, Reader(), k + 1, |window|);
            stopped := true;
            break;
          }
        }
      }
      done := ctx.Err();
      assert s == Feed(fn, s0, Readable(window, group, Reader(), |window|)).state;
      if done { return total, Some(Expired), s; }
      return total, None, s;
    }
  }

  // ---- the reference sequence ----

  /** Position k without the id check: what the mock hands to the callback. */
  function Resolved(window: seq<string>, group: string, read: Reads, k: nat): seq<Rec>
    requires k < |window|
  {
    match read(k, window[k])
    case Unreadable => []
    case Got(r) => if r.header.groupId == group then [r] else []
  }

  function Readable(window: seq<string>, group: string, read: Reads, n: nat): seq<Rec>
    requires n <= |window|
  {
    if n == 0 then [] else Readable(window, group, read, n - 1) + Resolved(window, group, read, n - 1)
  }

  lemma FeedReadable<S>(fn: Visit<S>, s: S, window: seq<string>, group: string, read: Reads, k: nat)
    requires k < |window|
    ensures var f := Feed(fn, s, Readable(window, group, read, k));
            var x := Resolved(window, group, read, k);
            Feed(fn, s, Readable(window, group, read, k + 1)) ==
            if f.stopped || x == [] then f else Fed(fn(f.state, x[0]).0, !fn(f.state, x[0]).1)
  {
    var f, x := Feed(fn, s, Readable(window, group, read, k)), Resolved(window, group, read, k);
    FeedConcat(fn, s, Readable(window, group, read, k), x);
    if !f.stopped && x != [] { assert x[1..] == []; }
  }

  lemma {:induction false} FeedReadableStopped<S>(fn: Visit<S>, s: S, window: seq<string>, group: string, read: Reads,
                                                   m: nat, n: nat)
    requires m <= n <= |window| && Feed(fn, s, Readable(window, group, read, m)).stopped
    ensures Feed(fn, s, Readable(window, group, read, n)) == Feed(fn, s, Readable(window, group, read, m))
    decreases n
  {
    hide Readable, Feed, Resolved;
    if m < n {
      FeedReadableStopped(fn, s, window, group, read, m, n - 1);
      FeedReadable(fn, s, window, group, read, n - 1);
    }
  }

  lemma NothingRead<S>(fn: Visit<S>, s: S, window: seq<string>, group: string, read: Reads)
    ensures Feed(fn, s, Readable(window, group, read, 0)) == Fed(s, false)
  {
  }

  /** The KV scan's sequence is the mock's with the positions of malformed ids cut out. */
  lemma {:induction false} ScansAgree(window: seq<string>, group: string, read: Reads, n: nat)
    requires n <= |window|
    ensures (forall k :: 0 <= k < n ==> IsUuid(window[k]) || Resolved(window, group, read, k) == []) <==>
            Visible(window, group, read, n) == Readable(window, group, read, n)
    ensures |Visible(window, group, read, n)| <= |Readable(window, group, read, n)|
  {
    if n > 0 {
      ScansAgree(window, group, read, n - 1);
      var v, r := Visible(window, group, read, n - 1), Readable(window, group, read, n - 1);
      var x, y := Shown(window, group, read, n - 1), Resolved(window, group, read, n - 1);
      if v + x == r + y {
        assert |x| == |y| by { assert |v + x| == |r + y|; }
        assert v == (v + x)[..|v|] && r == (r + y)[..|r|];
      }
    }
  }

  /** On a window of UUIDs both scans leave any callback in the same state. */
  lemma UuidScansAgree<S>(window: seq<string>, group: string, read: Reads, fn: Visit<S>, s0: S)
    requires forall k :: 0 <= k < |window| ==> IsUuid(window[k])
    ensures Feed(fn, s0, Visible(window, group, read, |window|)) ==
            Feed(fn, s0, Readable(window, group, read, |window|))
  {
    hide Feed, Visible, Readable;
    ScansAgree(window, group, read, |window|);
  }

  /** The same request to both stores: on an index of UUIDs, when both scans succeed,
      total and final callback state coincide. */
  method ScanBoth<S>(mock: TrackingStore, scanner: GroupScanner, mockCtx: Context, ctx: Context,
                     group: string, offset: int, limit: int, fn: Visit<S>, s0: S)
    returns (a: (nat, Option<StoreError>, S), b: (nat, Option<ScanError>, S))
    requires scanner.Slots() && mockCtx != ctx && group in mock.groups
    requires forall k :: 0 <= k < |mock.groups[group]| ==> IsUuid(mock.groups[group][k])
    modifies mockCtx, ctx, scanner.records, scanner.readFailed, scanner.valid
    ensures a.1 == None && b.1 == None ==> a.0 == b.0 && a.2 == b.2
  {
    hide Feed, Visible, Readable, IsUuid;
    ghost var read := mock.Reader();
    var total, err, s := mock.ScanGroupRecords(mockCtx, group, offset, limit, fn, s0);
    a := (total, err, s);
    var total2, err2, s2 :=
      scanner.ScanGroupRecords(ctx, group, offset, limit, IndexReply.Found(mock.groups[group]), mock.Reader(), fn, s0);
    b := (total2, err2, s2);
    if err == None {
      UuidScansAgree(Window(mock.groups[group], offset, Min(limit, GI.MAX_GROUP_EMAILS)), group, read, fn, s0);
    }
  }

  /** A malformed id under which a record of the group is stored: the mock shows that
      record, the KV store does not. */
  lemma MalformedIdIsShownByMockOnly(r: Rec)
    ensures var window, read := ["x"], (k: nat, id: string) => Got(r);
            && Readable(window, r.header.groupId, read, 1) == [r]
            && Visible(window, r.header.groupId, read, 1) == []
  {
    var window, read: Reads := ["x"], (k: nat, id: string) => Got(r);
    assert Resolved(window, r.header.groupId, read, 0) == [r];
    assert Readable(window, r.header.groupId, read, 0) == [];
    assert Shown(window, r.header.groupId, read, 0) == [];
  }
}
