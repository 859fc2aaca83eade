/** Reading a group: the 16-slot chunked scan, and what the one-by-one reading of
    the same window would hand to the callback. */
module Scan {
  import opened Wire
  import opened Record
  import GI = GroupIndex

  /** A context: some number of checks answer "live", every later one "done"; done
      means cancelled, or else past its deadline. */
  class Context {
    const liveChecks: Option<nat>
    const canceled: bool
    var checks: nat

    constructor (liveChecks: Option<nat>, canceled: bool)
      ensures this.liveChecks == liveChecks && this.canceled == canceled && checks == 0
    {
      this.liveChecks, this.canceled, this.checks := liveChecks, canceled, 0;
    }

    predicate DoneAt(check: nat) {
      liveChecks.Some? && check >= liveChecks.value
    }

    method Err() returns (done: bool)
      modifies this
      ensures checks == old(checks) + 1 && done == DoneAt(old(checks))
    {
      done, checks := DoneAt(checks), checks + 1;
    }
  }

  datatype Read = Got(rec: Rec) | Unreadable
  /** What reading the record at a window position returns; the store may change in between. */
  type Reads = (nat, string) -> Read

  /** A callback on accumulated state; false stops the scan. */
  type Visit<!S> = (S, Rec) -> (S, bool)

  // ---- the one-by-one reading ----

  /** The record position k hands to the callback, if any. */
  function Shown(window: seq<string>, group: string, read: Reads, k: nat): seq<Rec>
    requires k < |window|
  {
    if !IsUuid(window[k]) then []
    else
      match read(k, window[k])
      case Unreadable => []
      case Got(r) => if r.header.groupId == group then [r] else []
  }

  /** A position hands over a record exactly if its id is a UUID, the read found the
      record, and the record was sent under this group. */
  lemma ShownExactly(window: seq<string>, group: string, read: Reads, k: nat, r: Rec)
    requires k < |window|
    ensures |Shown(window, group, read, k)| <= 1
    ensures Shown(window, group, read, k) == [r] <==>
            IsUuid(window[k]) && read(k, window[k]) == Got(r) && r.header.groupId == group
  {
  }

  /** The records positions 0..n hand to the callback, in index order. */
  function Visible(window: seq<string>, group: string, read: Reads, n: nat): seq<Rec>
    requires n <= |window|
  {
    if n == 0 then [] else Visible(window, group, read, n - 1) + Shown(window, group, read, n - 1)
  }

  datatype Fed<S> = Fed(state: S, stopped: bool)

  /** Calling the callback on each record until it says stop. */
  function Feed<S>(fn: Visit<S>, s: S, recs: seq<Rec>): Fed<S> {
    if recs == [] then Fed(s, false)
    else
      var (t, more) := fn(s, recs[0]);
      if more then Feed(fn, t, recs[1..]) else Fed(t, true)
  }

  /** Feed calls the callback on the records in order, up to and including the first
      that stops it: k calls, of which only the last may have said stop. */
  lemma {:induction false} FeedMeaning<S>(fn: Visit<S>, s: S, recs: seq<Rec>) returns (k: nat, states: seq<S>)
    ensures k <= |recs| && |states| == k + 1 && states[0] == s && states[k] == Feed(fn, s, recs).state
    ensures forall i :: 0 <= i < k ==> states[i + 1] == fn(states[i], recs[i]).0
    ensures forall i :: 0 <= i < k - 1 ==> fn(states[i], recs[i]).1
    ensures if Feed(fn, s, recs).stopped then k > 0 && !fn(states[k - 1], recs[k - 1]).1
            else k == |recs| && (k > 0 ==> fn(states[k - 1], recs[k - 1]).1)
  {
    if recs == [] {
      k, states := 0, [s];
    } else {
      var (t, more) := fn(s, recs[0]);
      if more {
        var n, later := FeedMeaning(fn, t, recs[1..]);
        k, states := n + 1, [s] + later;
      } else {
        k, states := 1, [s, t];
      }
    }
  }

  lemma {:induction false} FeedConcat<S>(fn: Visit<S>, s: S, a: seq<Rec>, b: seq<Rec>)
    ensures Feed(fn, s, a + b) == if Feed(fn, s, a).stopped then Feed(fn, s, a) else Feed(fn, Feed(fn, s, a).state, b)
  {
    if a == [] {
      assert a + b == b;
    } else {
      assert (a + b)[1..] == a[1..] + b;
      FeedConcat(fn, fn(s, a[0]).0, a[1..], b);
    }
  }

  lemma FeedShown<S>(fn: Visit<S>, s: S, window: seq<string>, group: string, read: Reads, k: nat)
    requires k < |window|
    ensures var f := Feed(fn, s, Visible(window, group, read, k));
            var x := Shown(window, group, read, k);
            Feed(fn, s, Visible(window, group, read, k + 1)) ==
            if f.stopped || x == [] then f else Fed(fn(f.state, x[0]).0, !fn(f.state, x[0]).1)
  {
    var f, x := Feed(fn, s, Visible(window, group, read, k)), Shown(window, group, read, k);
    FeedConcat(fn, s, Visible(window, group, read, k), x);
    if !f.stopped && x != [] {
      assert x[1..] == [];
    }
  }

  /** Once stopped, later positions change nothing. */
  lemma {:induction false} FeedStopped<S>(fn: Visit<S>, s: S, window: seq<string>, group: string, read: Reads,
                                           m: nat, n: nat)
    requires m <= n <= |window| && Feed(fn, s, Visible(window, group, read, m)).stopped
    ensures Feed(fn, s, Visible(window, group, read, n)) == Feed(fn, s, Visible(window, group, read, m))
    decreases n
  {
    hide Visible, Feed, Shown;
    if m < n {
      FeedStopped(fn, s, window, group, read, m, n - 1);
      FeedShown(fn, s, window, group, read, n - 1);
    }
  }

  // ---- the window ----

  function Min(a: int, b: int): int { if a < b then a else b }

  function Window(ids: seq<string>, offset: nat, limit: nat): seq<string> {
    if offset >= |ids| then [] else ids[offset..Min(|ids|, offset + limit)]
  }

  /** A window is the index from the offset on, cut at the limit and at its end. */
  lemma WindowExactly(ids: seq<string>, offset: nat, limit: nat)
    ensures var w := Window(ids, offset, limit);
            && |w| == (if offset >= |ids| then 0 else if |ids| - offset < limit then |ids| - offset else limit)
            && forall k :: 0 <= k < |w| ==> w[k] == ids[offset + k]
  {
  }

  datatype IndexReply = Found(ids: seq<string>) | Missing | Failed
  datatype ScanError = InvalidKey | InvalidRange | ContextDone | NotFound | IndexFailed

  const GROUP_READ_CONCURRENCY := 16
  const ZERO_REC := NewRec(Header("", "", "", "", ZERO_TIME))

  class GroupScanner {
    var records: array<Rec>
    var readFailed: array<bool>
    var valid: array<bool>

    ghost predicate Slots()
      reads this
    {
      records.Length == readFailed.Length == valid.Length == GROUP_READ_CONCURRENCY &&
      readFailed != valid
    }

    constructor ()
      ensures Slots() && fresh(records) && fresh(readFailed) && fresh(valid)
    {
      records := new Rec[GROUP_READ_CONCURRENCY](_ => ZERO_REC);
      readFailed := new bool[GROUP_READ_CONCURRENCY](_ => false);
      valid := new bool[GROUP_READ_CONCURRENCY](_ => false);
    }

    /** The concurrent reads of one chunk: every valid slot of the chunk is refilled,
        the others keep whatever an earlier chunk left there. */
    method ReadChunk(window: seq<string>, start: nat, size: nat, read: Reads)
      requires Slots() && size <= GROUP_READ_CONCURRENCY && start + size <= |window|
      modifies records, readFailed, valid
      ensures forall i :: 0 <= i < size ==> valid[i] == IsUuid(window[start + i])
      ensures forall i :: 0 <= i < size && valid[i] ==>
                match read(start + i, window[start + i])
                case Unreadable => readFailed[i]
                case Got(r) => !readFailed[i] && records[i] == r
    {
      forall i | 0 <= i < size { valid[i] := IsUuid(window[start + i]); }
      forall i | 0 <= i < size && IsUuid(window[start + i]) {
        readFailed[i] := read(start + i, window[start + i]).Unreadable?;
      }
      forall i | 0 <= i < size && IsUuid(window[start + i]) {
        records[i] := match read(start + i, window[start + i]) case Got(r) => r case Unreadable => ZERO_REC;
      }
    }

    /** Hands one chunk's slots to the callback in order. */
    method VisitChunk<S>(window: seq<string>, start: nat, size: nat, ghost read: Reads,
                        group: string, fn: Visit<S>, s: S, ghost s0: S)
      returns (t: S, stopped: bool)
      requires Slots() && size <= GROUP_READ_CONCURRENCY && start + size <= |window|
      requires forall i :: 0 <= i < size ==> valid[i] == IsUuid(window[start + i])
      requires forall i :: 0 <= i < size && valid[i] ==>
                 match read(start + i, window[start + i])
                 case Unreadable => readFailed[i]
                 case Got(r) => !readFailed[i] && records[i] == r
      requires Feed(fn, s0, Visible(window, group, read, start)) == Fed(s, false)
      ensures Feed(fn, s0, Visible(window, group, read, start + size)) == Fed(t, stopped)
    {
      hide Visible, Feed;
      t := s;
      for i := 0 to size
        invariant Feed(fn, s0, Visible(window, group, read, start + i)) == Fed(t, false)
      {
        FeedShown(fn, s0, window, group, read, start + i);
        if valid[i] && !readFailed[i] && records[i].header.groupId == group {
          var (u, more) := fn(t, records[i]);
          t := u;
          if !more {
            FeedStopped(fn, s0, window, group, read, start + i + 1, start + size);
            return t, true;
          }
        }
      }
      return t, false;
    }

    /** The chunked scan hands the callback exactly what reading the window one by one
        would, cut after the first stop; a context that is done ends it with an error
        after some prefix of that, and success is never reported after a done check. */
    method ScanGroupRecords<S>(ctx: Context, group: string, offset: int, limit: int,
                              index: IndexReply, read: Reads, fn: Visit<S>, s0: S)
      returns (total: nat, err: Option<ScanError>, s: S)
      requires Slots()
      modifies ctx, records, readFailed, valid
      ensures err == None ==>
                && index.Found? && ValidKey(group) && offset >= 0 && limit > 0 && total == |index.ids|
                && var window := Window(index.ids, offset, Min(limit, GI.MAX_GROUP_EMAILS));
                   s == Feed(fn, s0, Visible(window, group, read, |window|)).state
      ensures err == None ==> ctx.checks > old(ctx.checks) && !ctx.DoneAt(ctx.checks - 1)
      ensures err == Some(ContextDone) <==> ctx.checks > old(ctx.checks) && ctx.DoneAt(ctx.checks - 1)
      ensures err != None && err != Some(ContextDone) ==> s == s0
      ensures err == Some(ContextDone) ==>
                || s == s0
                || (index.Found? && offset >= 0 && limit > 0 &&
                    var window := Window(index.ids, offset, Min(limit, GI.MAX_GROUP_EMAILS));
                    exists n :: 0 <= n <= |window| && s == Feed(fn, s0, Visible(window, group, read, n)).state)
      ensures ctx.liveChecks == None ==>
                err == if !ValidKey(group) then Some(InvalidKey)
                       else if offset < 0 || limit <= 0 then Some(InvalidRange)
                       else if index.Missing? then Some(NotFound) else if index.Failed? then Some(IndexFailed) else None
    {
      hide Visible, Feed, ValidKey;
      s, total := s0, 0;
      if !ValidKey(group) { return 0, Some(InvalidKey), s; }
      if offset < 0 || limit <= 0 { return 0, Some(InvalidRange), s; }
      var size := Min(limit, GI.MAX_GROUP_EMAILS);
      var done := ctx.Err();
      if done { return 0, Some(ContextDone), s; }
      done := ctx.Err();
      if done { return 0, Some(ContextDone), s; }
      if index.Missing? { return 0, Some(NotFound), s; }
      if index.Failed? { return 0, Some(IndexFailed), s; }
      total := |index.ids|;
      done := ctx.Err();
      if done { return total, Some(ContextDone), s; }
      var window := Window(index.ids, offset, size);
      EmptyFeed(fn, s0, window, group, read);
      if offset >= total { return total, None, s; }
      var start, stopped := 0, false;
      while start < |window| && !stopped
        invariant 0 <= start && (start <= |window| || stopped)
        invariant Feed(fn, s0, Visible(window, group, read, if stopped then |window| else start)) == Fed(s, stopped)
        invariant ctx.checks > old(ctx.checks)
        decreases |window| - start
      {
        done := ctx.Err();
        if done { return total, Some(ContextDone), s; }
        var chunk := Min(GROUP_READ_CONCURRENCY, |window| - start);
        ReadChunk(window, start, chunk, read);
        done := ctx.Err();
        if done { return total, Some(ContextDone), s; }
        s, stopped := VisitChunk(window, start, chunk, read, group, fn, s, s0);
        if stopped { FeedStopped(fn, s0, window, group, read, start + chunk, |window|); }
        start := start + chunk;
      }
      done := ctx.Err();
      if done { return total, Some(ContextDone), s; }
      return total, None, s;
    }
  }

  lemma EmptyFeed<S>(fn: Visit<S>, s: S, window: seq<string>, group: string, read: Reads)
    ensures Feed(fn, s, Visible(window, group, read, 0)) == Fed(s, false)
  {
  }
}
