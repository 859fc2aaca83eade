/** The status and analytics requests built on the scan, and reading a whole group
    page by page. */
module GroupReaders {
  import opened Wire
  import opened Record
  import opened Scan
  import GI = GroupIndex

  // ---- the size-limited reply ----

  /** json.Marshal of one record; JSON is never empty. */
  type Encoder = Rec -> Option<string>

  ghost predicate NonEmptyJson(enc: Encoder) {
    forall r :: enc(r).Some? ==> |enc(r).value| >= 1
  }

  datatype Reply = Reply(buf: string, tooLarge: bool, failed: bool)
  const EMPTY_REPLY := Reply("[", false, false)

  /** The scan callback of a group status request. */
  function AddRecord(enc: Encoder, maxPayload: int): Visit<Reply> {
    (p: Reply, r: Rec) =>
      match enc(r)
      case None => (p.(failed := true), false)
      case Some(b) =>
        var sep := if |p.buf| > 1 then 1 else 0;
        if |p.buf| + sep + |b| + 1 > maxPayload then (p.(tooLarge := true), false)
        else (p.(buf := (if sep == 1 then p.buf + "," else p.buf) + b), true)
  }

  predicate AllEncode(enc: Encoder, recs: seq<Rec>) {
    forall r :: r in recs ==> enc(r).Some?
  }

  /** The records as JSON values separated by commas. */
  function Joined(enc: Encoder, recs: seq<Rec>): string
    requires AllEncode(enc, recs)
  {
    if recs == [] then ""
    else
      var init := Joined(enc, recs[..|recs| - 1]);
      (if |recs| > 1 then init + "," else init) + enc(recs[|recs| - 1]).value
  }

  /** The complete JSON array. */
  function Array(enc: Encoder, recs: seq<Rec>): string
    requires AllEncode(enc, recs)
  {
    "[" + Joined(enc, recs) + "]"
  }

  /** The array's text: its brackets, and one comma between neighbours. */
  lemma ArrayText(enc: Encoder, recs: seq<Rec>, r: Rec)
    requires AllEncode(enc, recs) && enc(r).Some?
    ensures Array(enc, []) == "[]" && Array(enc, [r]) == "[" + enc(r).value + "]"
    ensures recs != [] ==>
              Array(enc, recs + [r]) == Array(enc, recs)[..|Array(enc, recs)| - 1] + "," + enc(r).value + "]"
  {
    assert (recs + [r])[..|recs|] == recs && [r][..0] == [];
    assert Joined(enc, [r]) == enc(r).value by { assert "" + enc(r).value == enc(r).value; }
    var a := Array(enc, recs);
    assert a[..|a| - 1] == "[" + Joined(enc, recs);
  }

  lemma {:induction false} JoinedNonEmpty(enc: Encoder, recs: seq<Rec>)
    requires NonEmptyJson(enc) && AllEncode(enc, recs)
    ensures Joined(enc, recs) == "" <==> recs == []
  {
  }

  lemma {:induction false} JoinedGrows(enc: Encoder, recs: seq<Rec>, n: nat)
    requires NonEmptyJson(enc) && AllEncode(enc, recs) && n <= |recs|
    ensures |Joined(enc, recs[..n])| <= |Joined(enc, recs)|
  {
    if n < |recs| {
      assert recs[..|recs| - 1][..n] == recs[..n];
      JoinedGrows(enc, recs[..|recs| - 1], n);
    } else {
      assert recs[..n] == recs;
    }
  }

  /** After any records, the buffer is the joined array so far while it and its bracket
      fit, and the page is rejected as soon as they do not. */
  lemma {:induction false} BufferIsJoined(enc: Encoder, maxPayload: int, recs: seq<Rec>)
    requires NonEmptyJson(enc) && AllEncode(enc, recs) && maxPayload >= 1
    ensures var f := Feed(AddRecord(enc, maxPayload), EMPTY_REPLY, recs);
            && !f.state.failed
            && (f.state.tooLarge <==> f.stopped)
            && (f.stopped <==> recs != [] && |Array(enc, recs)| > maxPayload)
            && (!f.stopped ==> f.state.buf == "[" + Joined(enc, recs))
  {
    if recs != [] {
      var init, r := recs[..|recs| - 1], recs[|recs| - 1];
      assert recs == init + [r];
      BufferIsJoined(enc, maxPayload, init);
      FeedConcat(AddRecord(enc, maxPayload), EMPTY_REPLY, init, [r]);
      JoinedNonEmpty(enc, init);
      JoinedGrows(enc, recs, |recs| - 1);
      FeedOne(AddRecord(enc, maxPayload), Feed(AddRecord(enc, maxPayload), EMPTY_REPLY, init).state, r);
    }
  }

  lemma FeedOne<S>(fn: Visit<S>, s: S, r: Rec)
    ensures Feed(fn, s, [r]) == Fed(fn(s, r).0, !fn(s, r).1)
  {
    assert [r][1..] == [];
  }

  /** The finished reply is exactly the complete array and within the limit;
      "response too large" is answered if and only if that array would exceed it.
      The one exception is an empty page under a limit of a single byte. */
  lemma ReplyIsWholePage(enc: Encoder, maxPayload: int, recs: seq<Rec>)
    requires NonEmptyJson(enc) && AllEncode(enc, recs) && maxPayload >= 1
    ensures var p := Feed(AddRecord(enc, maxPayload), EMPTY_REPLY, recs).state;
            && (!p.tooLarge ==> p.buf + "]" == Array(enc, recs))
            && ((p.tooLarge <==> |Array(enc, recs)| > maxPayload) <==> !(recs == [] && maxPayload == 1))
            && (!p.tooLarge ==> (|p.buf + "]"| <= maxPayload <==> !(recs == [] && maxPayload == 1)))
  {
    BufferIsJoined(enc, maxPayload, recs);
    JoinedNonEmpty(enc, recs);
  }

  // ---- analytics ----

  datatype Analytics = Analytics(delivered: nat, opens: int, uniqueOpened: nat, failed: nat)
  const NO_ANALYTICS := Analytics(0, 0, 0, 0)

  function Bit(b: bool): nat { if b then 1 else 0 }

  /** The scan callback of an analytics request. */
  function Aggregate(): Visit<Analytics> {
    (a: Analytics, r: Rec) =>
      (Analytics(a.delivered + Bit(r.delivered), a.opens + r.openCount,
                 a.uniqueOpened + Bit(r.wasOpened), a.failed + Bit(r.failed)), true)
  }

  function CountsOf(r: Rec): Analytics {
    Analytics(Bit(r.delivered), r.openCount, Bit(r.wasOpened), Bit(r.failed))
  }

  function Plus(a: Analytics, b: Analytics): Analytics {
    Analytics(a.delivered + b.delivered, a.opens + b.opens, a.uniqueOpened + b.uniqueOpened, a.failed + b.failed)
  }

  /** Field-wise sums over a list of records. */
  function Totals(recs: seq<Rec>): Analytics {
    if recs == [] then NO_ANALYTICS
    else Plus(CountsOf(recs[0]), Totals(recs[1..]))
  }

  lemma {:induction false} AggregateIsSum(a: Analytics, recs: seq<Rec>)
    ensures Feed(Aggregate(), a, recs) == Fed(Plus(a, Totals(recs)), false)
    decreases |recs|
  {
    if recs != [] {
      AggregateIsSum(Aggregate()(a, recs[0]).0, recs[1..]);
    }
  }

  lemma TotalsFirst(recs: seq<Rec>)
    requires recs != []
    ensures Totals(recs) == Plus(CountsOf(recs[0]), Totals(recs[1..]))
  {
  }

  lemma PlusLaws(a: Analytics, b: Analytics, c: Analytics)
    ensures Plus(a, Plus(b, c)) == Plus(Plus(a, b), c) && Plus(NO_ANALYTICS, a) == a
  {
  }

  lemma {:induction false} TotalsConcat(a: seq<Rec>, b: seq<Rec>)
    ensures Totals(a + b) == Plus(Totals(a), Totals(b))
    decreases |a|
  {
    if a == [] {
      assert a + b == b;
      PlusLaws(Totals(b), Totals(b), Totals(b));
    } else {
      hide CountsOf, Totals, Plus;
      assert (a + b)[1..] == a[1..] + b;
      TotalsFirst(a);
      TotalsFirst(a + b);
      TotalsConcat(a[1..], b);
      PlusLaws(CountsOf(a[0]), Totals(a[1..]), Totals(b));
    }
  }

  /** The positions whose record meets a condition. */
  ghost function Where(recs: seq<Rec>, p: Rec -> bool): set<nat> {
    set k: nat | k < |recs| && p(recs[k])
  }

  lemma WhereSnoc(recs: seq<Rec>, r: Rec, p: Rec -> bool)
    ensures |Where(recs + [r], p)| == |Where(recs, p)| + if p(r) then 1 else 0
  {
    assert Where(recs + [r], p) == Where(recs, p) + if p(r) then {|recs|} else {};
    assert |recs| !in Where(recs, p);
  }

  function SumOpens(recs: seq<Rec>): int {
    if recs == [] then 0 else SumOpens(recs[..|recs| - 1]) + recs[|recs| - 1].openCount
  }

  /** The totals are numbers of records: delivered, opened at least once, failed; and the
      sum of the records' open counts. */
  lemma {:induction false} TotalsCount(recs: seq<Rec>)
    ensures Totals(recs).delivered == |Where(recs, (r: Rec) => r.delivered)|
    ensures Totals(recs).uniqueOpened == |Where(recs, (r: Rec) => r.wasOpened)|
    ensures Totals(recs).failed == |Where(recs, (r: Rec) => r.failed)|
    ensures Totals(recs).opens == SumOpens(recs)
  {
    if recs != [] {
      var init, r := recs[..|recs| - 1], recs[|recs| - 1];
      assert recs == init + [r];
      TotalsCount(init);
      TotalsConcat(init, [r]);
      assert Totals([r]) == Plus(CountsOf(r), Totals([])) by { assert [r][1..] == []; }
      WhereSnoc(init, r, (r: Rec) => r.delivered);
      WhereSnoc(init, r, (r: Rec) => r.wasOpened);
      WhereSnoc(init, r, (r: Rec) => r.failed);
    }
  }

  // ---- paging ----

  const DEFAULT_GROUP_STATUS_LIMIT := 500
  const MAX_GROUP_STATUS_LIMIT := 1_000

  /** The page size a request's limit stands for. */
  function PageSize(limit: nat): nat {
    if limit == 0 then DEFAULT_GROUP_STATUS_LIMIT else limit
  }

  /** The windows of successive pages; the index may have grown before each of them. */
  function Pages(indexes: seq<seq<string>>, offset: nat, limit: nat): seq<string> {
    if indexes == [] then [] else Window(indexes[0], offset, limit) + Pages(indexes[1..], offset + limit, limit)
  }

  /** A client pages while offset < total; every index it sees holds at least `total`
      ids and extends the one before. */
  ghost predicate PagedTo(indexes: seq<seq<string>>, offset: nat, limit: nat, total: nat)
    decreases |indexes|
  {
    if offset >= total then indexes == []
    else
      && indexes != [] && |indexes[0]| >= total
      && (|indexes| > 1 ==> indexes[0] <= indexes[1])
      && PagedTo(indexes[1..], offset + limit, limit, total)
  }

  lemma PagesFirst(indexes: seq<seq<string>>, offset: nat, limit: nat, total: nat)
    requires offset < total && PagedTo(indexes, offset, limit, total)
    ensures indexes != [] && |indexes[0]| >= total && PagedTo(indexes[1..], offset + limit, limit, total)
    ensures offset + limit < total ==> indexes[1..] != [] && indexes[0] <= indexes[1]
    ensures Pages(indexes, offset, limit) ==
            if offset + limit < total
            then Window(indexes[0], offset, limit) + Pages(indexes[1..], offset + limit, limit)
            else Window(indexes[0], offset, limit)
    ensures offset + limit >= total ==> |indexes| == 1
  {
    if offset + limit >= total {
      assert indexes[1..] == [];
      assert Window(indexes[0], offset, limit) + [] == Window(indexes[0], offset, limit);
    }
  }

  /** A window that ends before the index does is the same in every extension of it. */
  lemma FullWindow(ids: seq<string>, longer: seq<string>, offset: nat, limit: nat)
    requires ids <= longer && offset + limit <= |ids|
    ensures Window(ids, offset, limit) == longer[offset..offset + limit]
  {
  }

  lemma SliceJoin<T>(s: seq<T>, a: nat, b: nat, c: nat)
    requires a <= b <= c <= |s|
    ensures s[a..b] + s[b..c] == s[a..c]
  {
  }

  /** Paging visits consecutive index positions, from the first offset on, without gap
      or repetition, and every position below the total is among them. */
  lemma {:induction false} PagesCoverIndex(indexes: seq<seq<string>>, offset: nat, limit: nat, total: nat)
    requires limit >= 1 && offset < total && PagedTo(indexes, offset, limit, total)
    ensures indexes != []
    ensures var visited := Pages(indexes, offset, limit);
            var newest := indexes[|indexes| - 1];
            && indexes[0] <= newest
            && |visited| >= total - offset
            && offset + |visited| <= |newest| && visited == newest[offset..offset + |visited|]
    decreases |indexes|
  {
    hide Pages, PagedTo;
    PagesFirst(indexes, offset, limit, total);
    var first, rest := indexes[0], indexes[1..];
    if offset + limit < total {
      PagesCoverIndex(rest, offset + limit, limit, total);
      var newest := rest[|rest| - 1];
      FullWindow(first, newest, offset, limit);
      SliceJoin(newest, offset, offset + limit, offset + limit + |Pages(rest, offset + limit, limit)|);
    } else {
      assert indexes[|indexes| - 1] == first;
    }
  }

  /** A store that does not change: what reading the record under each id returns. */
  datatype Stored = Present(rec: Rec) | NoSuchKey | Broken
  type Lookup = string -> Stored

  function Fixed(store: Lookup): Reads {
    (k: nat, id: string) => if store(id).Present? then Got(store(id).rec) else Unreadable
  }

  datatype StatusReply = Held(rec: Rec) | Absent | StoreFailed | InvalidEmailId

  /** handleByEmailID behind its validation: the record, if it was sent under this group. */
  function StatusByEmail(store: Lookup, group: string, emailId: string): StatusReply {
    if !IsUuid(emailId) then InvalidEmailId
    else
      match store(ToLower(emailId))
      case NoSuchKey => Absent
      case Broken => StoreFailed
      case Present(r) => if r.header.groupId == group then Held(r) else Absent
  }

  /** A single lookup reads the record under the lower-case id. It finds it exactly if it
      was sent under this group; a missing record and another group's are the same
      "not found", a failed read is an error of its own. */
  lemma SingleLookup(store: Lookup, group: string, emailId: string)
    requires IsUuid(emailId)
    ensures var id := seq(|emailId|, i requires 0 <= i < |emailId| =>
                            if 'A' <= emailId[i] <= 'Z' then (emailId[i] as int + 32) as char else emailId[i]);
            var found := StatusByEmail(store, group, emailId);
            && (forall r :: found == Held(r) <==> store(id) == Present(r) && r.header.groupId == group)
            && (found == StoreFailed <==> store(id) == Broken)
            && (found == Absent <==>
                  store(id) == NoSuchKey || (store(id).Present? && store(id).rec.header.groupId != group))
  {
    assert ToLower(emailId) == seq(|emailId|, i requires 0 <= i < |emailId| =>
                                     if 'A' <= emailId[i] <= 'Z' then (emailId[i] as int + 32) as char else emailId[i]);
  }

  /** The pointwise lookups of a list of ids, in order, that find a record. */
  function FoundAmong(store: Lookup, group: string, ids: seq<string>): seq<Rec> {
    if ids == [] then []
    else
      FoundAmong(store, group, ids[..|ids| - 1]) +
      match StatusByEmail(store, group, ids[|ids| - 1])
      case Held(r) => [r]
      case _ => []
  }

  /** On a fixed store a page shows exactly what single lookups of its (lower-case) ids find. */
  lemma {:induction false} PageIsPointwise(store: Lookup, group: string, window: seq<string>, n: nat)
    requires n <= |window| && forall i :: 0 <= i < n ==> ToLower(window[i]) == window[i]
    ensures Visible(window, group, Fixed(store), n) == FoundAmong(store, group, window[..n])
  {
    if n > 0 {
      PageIsPointwise(store, group, window, n - 1);
      assert window[..n][..n - 1] == window[..n - 1] && window[..n][n - 1] == window[n - 1];
    } else {
      assert window[..0] == [];
    }
  }

  lemma {:induction false} FoundConcat(store: Lookup, group: string, a: seq<string>, b: seq<string>)
    ensures FoundAmong(store, group, a + b) == FoundAmong(store, group, a) + FoundAmong(store, group, b)
    decreases |b|
  {
    if b == [] {
      assert a + b == a;
    } else {
      var i := b[..|b| - 1];
      assert (a + b)[..|a + b| - 1] == a + i;
      FoundConcat(store, group, a, i);
    }
  }

  /** What the pages show, one after the other, when neither index nor records change. */
  function ShownByPages(store: Lookup, group: string, ids: seq<string>, offset: nat, limit: nat): seq<Rec>
    requires limit >= 1
    decreases |ids| - offset
  {
    if offset >= |ids| then []
    else
      var w := Window(ids, offset, limit);
      Visible(w, group, Fixed(store), |w|) + ShownByPages(store, group, ids, offset + limit, limit)
  }

  /** The per-page analytics, added up. */
  function AddedByPages(store: Lookup, group: string, ids: seq<string>, offset: nat, limit: nat): Analytics
    requires limit >= 1
    decreases |ids| - offset
  {
    if offset >= |ids| then NO_ANALYTICS
    else
      var w := Window(ids, offset, limit);
      Plus(Totals(Visible(w, group, Fixed(store), |w|)), AddedByPages(store, group, ids, offset + limit, limit))
  }

  /** The pages put together are the pointwise lookups over the whole index. */
  lemma {:induction false} PagesArePointwise(store: Lookup, group: string, ids: seq<string>, offset: nat, limit: nat)
    requires limit >= 1 && offset <= |ids| && forall i :: 0 <= i < |ids| ==> ToLower(ids[i]) == ids[i]
    ensures ShownByPages(store, group, ids, offset, limit) == FoundAmong(store, group, ids[offset..])
    decreases |ids| - offset
  {
    hide FoundAmong, Visible;
    if offset < |ids| {
      var w := Window(ids, offset, limit);
      var next := Min(|ids|, offset + limit);
      PageIsPointwise(store, group, w, |w|);
      assert w[..|w|] == w && ids[offset..] == w + ids[next..];
      FoundConcat(store, group, w, ids[next..]);
      if offset + limit <= |ids| {
        PagesArePointwise(store, group, ids, offset + limit, limit);
      } else {
        assert ids[next..] == [];
        NothingFound(store, group);
      }
    } else {
      assert ids[offset..] == [];
      NothingFound(store, group);
    }
  }

  lemma NothingFound(store: Lookup, group: string)
    ensures FoundAmong(store, group, []) == []
  {
  }

  /** The totals of all records shown are the sums of the pages' totals. */
  lemma {:induction false} PageTotalsAdd(store: Lookup, group: string, ids: seq<string>, offset: nat, limit: nat)
    requires limit >= 1
    ensures AddedByPages(store, group, ids, offset, limit) == Totals(ShownByPages(store, group, ids, offset, limit))
    decreases |ids| - offset
  {
    hide Visible, Window, Plus;
    if offset < |ids| {
      hide Totals;
      var w := Window(ids, offset, limit);
      TotalsConcat(Visible(w, group, Fixed(store), |w|), ShownByPages(store, group, ids, offset + limit, limit));
      PageTotalsAdd(store, group, ids, offset + limit, limit);
    }
  }

  lemma {:induction false} VisibleSplit(window: seq<string>, group: string, store: Lookup, m: nat, n: nat)
    requires m <= n <= |window|
    ensures Visible(window, group, Fixed(store), n) ==
            Visible(window, group, Fixed(store), m) + Visible(window[m..], group, Fixed(store), n - m)
    decreases n
  {
    if m < n {
      hide Fixed;
      VisibleSplit(window, group, store, m, n - 1);
      assert window[m..][n - 1 - m] == window[n - 1];
      assert Shown(window, group, Fixed(store), n - 1) == Shown(window[m..], group, Fixed(store), n - 1 - m) by {
        ShownAnywhere(window[n - 1], window, window[m..], group, store, n - 1, n - 1 - m);
      }
    }
  }

  /** On a fixed store a record is shown or not wherever its id stands. */
  lemma ShownAnywhere(id: string, a: seq<string>, b: seq<string>, group: string, store: Lookup, i: nat, j: nat)
    requires i < |a| && j < |b| && a[i] == b[j] == id
    ensures Shown(a, group, Fixed(store), i) == Shown(b, group, Fixed(store), j)
  {
  }

  lemma VisiblePrefix(window: seq<string>, group: string, store: Lookup, n: nat)
    requires n <= |window|
    ensures Visible(window[..n], group, Fixed(store), n) == Visible(window, group, Fixed(store), n)
  {
    VisibleIsLocal(window[..n], window, group, store, n);
  }

  lemma {:induction false} VisibleIsLocal(a: seq<string>, b: seq<string>, group: string, store: Lookup, n: nat)
    requires n <= |a| && n <= |b| && a[..n] == b[..n]
    ensures Visible(a, group, Fixed(store), n) == Visible(b, group, Fixed(store), n)
  {
    if n > 0 {
      hide Fixed;
      assert a[..n - 1] == a[..n][..n - 1] && b[..n - 1] == b[..n][..n - 1];
      VisibleIsLocal(a, b, group, store, n - 1);
      assert a[n - 1] == a[..n][n - 1] && b[n - 1] == b[..n][n - 1];
      ShownAnywhere(a[n - 1], a, b, group, store, n - 1, n - 1);
    }
  }

  /** All pages together show what one window over the rest of the index shows. */
  lemma {:induction false} PagesAreOneWindow(store: Lookup, group: string, ids: seq<string>, offset: nat, limit: nat)
    requires limit >= 1 && offset <= |ids|
    ensures ShownByPages(store, group, ids, offset, limit) ==
            Visible(ids[offset..], group, Fixed(store), |ids| - offset)
    decreases |ids| - offset
  {
    hide Visible, ShownByPages, Window;
    FirstPage(store, group, ids, offset, limit);
    var rest := ids[offset..];
    VisiblePrefix(rest, group, store, Min(limit, |rest|));
    if offset + limit <= |ids| {
      VisibleSplit(rest, group, store, limit, |rest|);
      assert rest[limit..] == ids[offset + limit..];
      PagesAreOneWindow(store, group, ids, offset + limit, limit);
    }
  }

  lemma FirstPage(store: Lookup, group: string, ids: seq<string>, offset: nat, limit: nat)
    requires limit >= 1 && offset <= |ids|
    ensures var n := Min(limit, |ids| - offset);
            ShownByPages(store, group, ids, offset, limit) ==
            if offset + limit <= |ids| then
              Visible(ids[offset..][..n], group, Fixed(store), n) +
              ShownByPages(store, group, ids, offset + limit, limit)
            else Visible(ids[offset..][..n], group, Fixed(store), n)
  {
    var n := Min(limit, |ids| - offset);
    assert Window(ids, offset, limit) == ids[offset..][..n];
    if offset < |ids| { hide Visible; }
  }

  /** An analytics request over an index within the cap counts what all pages count. */
  lemma AnalyticsIsSumOfPages(store: Lookup, group: string, ids: seq<string>, limit: nat)
    requires limit >= 1 && |ids| <= GI.MAX_GROUP_EMAILS
    ensures var w := Window(ids, 0, GI.MAX_GROUP_EMAILS);
            Feed(Aggregate(), NO_ANALYTICS, Visible(w, group, Fixed(store), |w|)).state ==
            AddedByPages(store, group, ids, 0, limit)
  {
    hide Visible, Totals, Feed, Aggregate, ShownByPages, AddedByPages;
    var w := Window(ids, 0, GI.MAX_GROUP_EMAILS);
    assert w == ids && ids[0..] == ids;
    PagesAreOneWindow(store, group, ids, 0, limit);
    PageTotalsAdd(store, group, ids, 0, limit);
    AggregateIsSum(NO_ANALYTICS, Visible(w, group, Fixed(store), |w|));
  }

  // ---- the handlers ----

  datatype Response =
    | Error(reason: string)
    | Page(json: string)
    | Single(json: string)
    | Summary(total: nat, counts: Analytics)

  type Payload = n: int | n >= 1 witness 1
  const DEFAULT_MAX_PAYLOAD: Payload := 1_048_576

  /** How an ended context is reported. */
  function DoneReason(canceled: bool): string {
    if canceled then "internal error" else "timeout"
  }

  /** The records a request for this window shows. */
  ghost function Shows(ids: seq<string>, offset: nat, limit: nat, group: string, read: Reads): seq<Rec> {
    var w := Window(ids, offset, Min(limit, GI.MAX_GROUP_EMAILS));
    Visible(w, group, read, |w|)
  }

  /** A page reply for these records is the complete array within the limit, and
      "response too large" is said only of an array that exceeds it. */
  ghost predicate PageReply(enc: Encoder, maxPayload: int, recs: seq<Rec>, r: Response) {
    && (r.Page? ==> AllEncode(enc, recs) && r.json == Array(enc, recs) && (recs != [] ==> |r.json| <= maxPayload))
    && (AllEncode(enc, recs) && r == Error("response too large") ==> recs != [] && |Array(enc, recs)| > maxPayload)
  }

  /** A record that cannot be encoded stops the scan, if a record before it has not. */
  lemma {:induction false} UnstoppedEncodes(enc: Encoder, maxPayload: int, p: Reply, recs: seq<Rec>)
    ensures var f := Feed(AddRecord(enc, maxPayload), p, recs);
            && (f.stopped ==> f.state.failed || f.state.tooLarge)
            && (!f.stopped ==> AllEncode(enc, recs) && f.state.failed == p.failed && f.state.tooLarge == p.tooLarge)
    decreases |recs|
  {
    if recs != [] {
      var (q, more) := AddRecord(enc, maxPayload)(p, recs[0]);
      if more { UnstoppedEncodes(enc, maxPayload, q, recs[1..]); }
    }
  }

  class GroupReadHandlers {
    const scanner: GroupScanner
    const enc: Encoder
    const maxPayload: Payload

    /** A payload limit of zero or less is ignored in favour of the default. */
    constructor (enc: Encoder, limit: int)
      ensures this.enc == enc && maxPayload == (if limit > 0 then limit else 1_048_576) && scanner.Slots()
      ensures fresh(scanner) && fresh(scanner.records) && fresh(scanner.readFailed) && fresh(scanner.valid)
    {
      this.enc, this.maxPayload := enc, if limit > 0 then limit else DEFAULT_MAX_PAYLOAD;
      scanner := new GroupScanner();
    }

    /** One page of a group, with the context's deadline already applied. */
    method HandleByGroupId(ctx: Context, group: string, offset: nat, limit: nat, index: IndexReply, read: Reads)
      returns (r: Response)
      requires scanner.Slots() && ValidKey(group) && limit >= 1 && NonEmptyJson(enc)
      modifies ctx, scanner.records, scanner.readFailed, scanner.valid
      ensures r.Page? || r.Error?
      // Whatever the deadline does.
      ensures r.Page? || r == Error("response too large") ==>
                index.Found? && PageReply(enc, maxPayload, Shows(index.ids, offset, limit, group, read), r)
      ensures r.Page? || r == Error("response too large") ==>
                ctx.checks > old(ctx.checks) && !ctx.DoneAt(ctx.checks - 1)
      ensures r == Error("timeout") ==> ctx.checks > old(ctx.checks) && ctx.DoneAt(ctx.checks - 1) && !ctx.canceled
      ensures ctx.checks > old(ctx.checks) && ctx.DoneAt(ctx.checks - 1) ==>
                r == Error(if ctx.canceled then "internal error" else "timeout")
      // While the context lives.
      ensures index.Missing? && ctx.liveChecks == None ==> r == Error("not found")
      ensures index.Failed? && ctx.liveChecks == None ==> r == Error("internal error")
      ensures index.Found? && ctx.liveChecks == None ==>
                var recs := Shows(index.ids, offset, limit, group, read);
                AllEncode(enc, recs) ==> r.Page? || r == Error("response too large")
    {
      hide Visible, Feed, AddRecord, Joined, AllEncode, NonEmptyJson;
      var total, err, p :=
        scanner.ScanGroupRecords(ctx, group, offset, limit, index, read, AddRecord(enc, maxPayload), EMPTY_REPLY);
      match err {
        case Some(NotFound) => return Error("not found");
        case Some(ContextDone) => return Error(DoneReason(ctx.canceled));
        case Some(_) => return Error("internal error");
        case None =>
      }
      ghost var recs := Shows(index.ids, offset, limit, group, read);
      UnstoppedEncodes(enc, maxPayload, EMPTY_REPLY, recs);
      if AllEncode(enc, recs) { BufferIsJoined(enc, maxPayload, recs); }
      if p.failed { return Error("internal error"); }
      if p.tooLarge { return Error("response too large"); }
      return Page(p.buf + "]");
    }

    /** get_email_status: validation, single lookup or page with its default limit. */
    method HandleStatus(ctx: Context, group: string, emailId: string, offset: int, limit: int,
                        index: IndexReply, read: Reads, store: Lookup) returns (r: Response)
      requires scanner.Slots() && NonEmptyJson(enc)
      modifies ctx, scanner.records, scanner.readFailed, scanner.valid
      ensures !IsGroupHandle(group) ==> r == Error(if group == "" then "group_id is required" else "invalid group_id")
      ensures IsGroupHandle(group) && emailId != "" ==>
                r == match StatusByEmail(store, group, emailId)
                     case Held(rec) => if enc(rec).Some? then Single(enc(rec).value) else Error("internal error")
                     case Absent => Error("not found")
                     case StoreFailed => Error("internal error")
                     case InvalidEmailId => Error("invalid email_id")
      ensures IsGroupHandle(group) && emailId == "" && offset < 0 ==> r == Error("invalid offset")
      ensures IsGroupHandle(group) && emailId == "" && offset >= 0 && !(0 <= limit <= 1_000) ==>
                r == Error("invalid limit")
      // A page is the complete one whatever the deadline does, and comes only while it has not passed.
      ensures r.Page? || r == Error("response too large") ==>
                && IsGroupHandle(group) && emailId == "" && offset >= 0 && 0 <= limit <= 1_000
                && index.Found? && ctx.checks > old(ctx.checks) && !ctx.DoneAt(ctx.checks - 1)
                && PageReply(enc, maxPayload,
                             Shows(index.ids, offset, if limit == 0 then 500 else limit, group, read), r)
      ensures ctx.checks > old(ctx.checks) && ctx.DoneAt(ctx.checks - 1) ==>
                r == Error(if ctx.canceled then "internal error" else "timeout")
      ensures IsGroupHandle(group) && emailId == "" && offset >= 0 && 0 <= limit <= 1_000 &&
              ctx.liveChecks == None ==>
                match index
                case Missing => r == Error("not found")
                case Failed => r == Error("internal error")
                case Found(ids) =>
                  AllEncode(enc, Shows(ids, offset, if limit == 0 then 500 else limit, group, read)) ==>
                    r.Page? || r == Error("response too large")
    {
      hide Shows, PageReply, AllEncode, NonEmptyJson;
      if group == "" { return Error("group_id is required"); }
      if !IsGroupHandle(group) { return Error("invalid group_id"); }
      IdentifiersAreKeys(group);
      if emailId != "" {
        if !IsUuid(emailId) { return Error("invalid email_id"); }
        match store(ToLower(emailId)) {
          case NoSuchKey => return Error("not found");
          case Broken => return Error("internal error");
          case Present(rec) =>
            if rec.header.groupId != group { return Error("not found"); }
            match enc(rec) {
              case None => return Error("internal error");
              case Some(json) => return Single(json);
            }
        }
      }
      if offset < 0 { return Error("invalid offset"); }
      if limit < 0 || limit > MAX_GROUP_STATUS_LIMIT { return Error("invalid limit"); }
      r := HandleByGroupId(ctx, group, offset, PageSize(limit), index, read);
    }

    /** get_email_engagement_analytics: totals over the first 10,000 index positions. */
    method HandleAnalytics(ctx: Context, group: string, index: IndexReply, read: Reads) returns (r: Response)
      requires scanner.Slots()
      modifies ctx, scanner.records, scanner.readFailed, scanner.valid
      ensures !IsGroupHandle(group) ==> r == Error(if group == "" then "group_id is required" else "invalid group_id")
      ensures IsGroupHandle(group) && index.Missing? && ctx.liveChecks == None ==> r == Error("not found")
      ensures IsGroupHandle(group) && index.Failed? && ctx.liveChecks == None ==> r == Error("internal error")
      ensures IsGroupHandle(group) && index.Found? && ctx.liveChecks == None ==> r.Summary?
      // A summary is the complete one whatever the deadline does.
      ensures r.Summary? ==>
                && IsGroupHandle(group) && index.Found? && ctx.checks > old(ctx.checks) && !ctx.DoneAt(ctx.checks - 1)
                && r == Summary(|index.ids|, Totals(Shows(index.ids, 0, 10_000, group, read)))
      ensures r.Summary? || r.Error?
      ensures ctx.checks > old(ctx.checks) && ctx.DoneAt(ctx.checks - 1) ==>
                r == Error(if ctx.canceled then "internal error" else "timeout")
      ensures r == Error("timeout") ==> ctx.checks > old(ctx.checks) && ctx.DoneAt(ctx.checks - 1) && !ctx.canceled
    {
      hide Visible, Feed, Aggregate, ValidKey, Totals, Window;
      if group == "" { return Error("group_id is required"); }
      if !IsGroupHandle(group) { return Error("invalid group_id"); }
      IdentifiersAreKeys(group);
      var total, err, counts :=
        scanner.ScanGroupRecords(ctx, group, 0, GI.MAX_GROUP_EMAILS, index, read, Aggregate(), NO_ANALYTICS);
      match err {
        case Some(NotFound) => return Error("not found");
        case Some(ContextDone) => return Error(DoneReason(ctx.canceled));
        case Some(_) => return Error("internal error");
        case None =>
      }
      AggregateIsSum(NO_ANALYTICS, Shows(index.ids, 0, GI.MAX_GROUP_EMAILS, group, read));
      return Summary(total, counts);
    }
  }
}
