/** The JSON text of a recipient record: how many bytes it takes, and that it
    determines the record. */
module RecordText {
  import opened Wire
  import opened Record
  import opened JsonText
  import opened Budget

  // ---- list entries ----

  function TimeText(t: int): string {
    if TimeOk(t) then TimeJson(t) else ""
  }

  function OpenText(e: OpenEvent): string {
    "{" + Member("event_id", Quoted(e.id), "," + Member("opened_at", TimeText(e.at), "}"))
  }

  function ClickText(e: ClickEvent): string {
    "{" + Member("event_id", Quoted(e.id), "," +
          Member("link", Quoted(e.link), "," +
          Member("clicked_at", TimeText(e.at), "}")))
  }

  lemma TimeBytes(t: int)
    requires TimeOk(t)
    ensures RawLen(TimeText(t)) == TimeLen(t)
  {
    hide TimeJson, TimeLen;
    TimeIsQuoted(t);
    TimeJsonLen(t);
    AsciiLen(TimeJson(t)) by { TimeIsAscii(t); }
  }

  lemma OpenTextBytes(e: OpenEvent)
    requires TimeOk(e.at)
    ensures RawLen(OpenText(e)) == 26 + QuotedLen(e.id) + TimeLen(e.at)
  {
    hide TimeText, Quoted, Member;
    var tail := Member("opened_at", TimeText(e.at), "}");
    QuotedBytes(e.id);
    TimeBytes(e.at);
    AsciiLen("}");
    MemberBytes("opened_at", TimeText(e.at), "}");
    CommaBytes(tail);
    MemberBytes("event_id", Quoted(e.id), "," + tail);
    AsciiLen("{");
    RawLenConcat("{", Member("event_id", Quoted(e.id), "," + tail));
  }

  lemma ClickTextBytes(e: ClickEvent)
    requires TimeOk(e.at)
    ensures RawLen(ClickText(e)) == 35 + QuotedLen(e.id) + QuotedLen(e.link) + TimeLen(e.at)
  {
    hide TimeText, Quoted, Member;
    var at := Member("clicked_at", TimeText(e.at), "}");
    var link := Member("link", Quoted(e.link), "," + at);
    QuotedBytes(e.id);
    QuotedBytes(e.link);
    TimeBytes(e.at);
    AsciiLen("}");
    MemberBytes("clicked_at", TimeText(e.at), "}");
    CommaBytes(at);
    MemberBytes("link", Quoted(e.link), "," + at);
    CommaBytes(link);
    MemberBytes("event_id", Quoted(e.id), "," + link);
    AsciiLen("{");
    RawLenConcat("{", Member("event_id", Quoted(e.id), "," + link));
  }

  lemma {:induction false} OpensBytes(l: seq<OpenEvent>)
    requires forall e :: e in l ==> TimeOk(e.at)
    ensures ElementBytes(l, OpenText) == OpenBytes(l)
  {
    hide OpenText, QuotedLen, TimeLen;
    if l != [] {
      OpensBytes(l[..|l| - 1]);
      OpenTextBytes(l[|l| - 1]);
    }
  }

  lemma {:induction false} ClicksBytes(l: seq<ClickEvent>)
    requires forall e :: e in l ==> TimeOk(e.at)
    ensures ElementBytes(l, ClickText) == ClickBytes(l)
  {
    hide ClickText, QuotedLen, TimeLen;
    if l != [] {
      ClicksBytes(l[..|l| - 1]);
      ClickTextBytes(l[|l| - 1]);
    }
  }

  lemma {:induction false} IdsBytes(l: seq<string>)
    ensures ElementBytes(l, Quoted) == IdBytes(l)
  {
    hide Quoted, QuotedLen;
    if l != [] {
      IdsBytes(l[..|l| - 1]);
      QuotedBytes(l[|l| - 1]);
    }
  }

  // ---- the record ----

  function OptTimeText(t: Option<int>): Option<string> {
    if t.None? then None else Some(TimeText(t.value))
  }

  /** An array, absent when empty. */
  function ListText<T>(l: seq<T>, text: T -> string): Option<string> {
    if l == [] then None else Some("[" + Elements(l, text, ""))
  }

  /** The text of a record from its "failed" member on; the others likewise. */
  function FromFailed(r: Rec): string {
    "," + Member("failed", BoolText(r.failed),
    Optional("failed_at", OptTimeText(r.failedAt), "}"))
  }

  function FromClickLists(r: Rec): string {
    Optional("click_event_ids", ListText(r.clickEventIds, Quoted),
    Optional("click_list", ListText(r.clickList, ClickText),
    Optional("last_clicked_at", OptTimeText(r.lastClickedAt), FromFailed(r))))
  }

  function FromClicked(r: Rec): string {
    "," + Member("clicked", BoolText(r.clicked), "," +
    Member("click_count", IntText(r.clickCount), FromClickLists(r)))
  }

  function FromOpens(r: Rec): string {
    Optional("opened_at_list", ListText(r.openedAtList, OpenText),
    Optional("last_opened_at", OptTimeText(r.lastOpenedAt), FromClicked(r)))
  }

  function FromOpened(r: Rec): string {
    "," + Member("opened", BoolText(r.wasOpened), "," +
    Member("open_count", IntText(r.openCount), FromOpens(r)))
  }

  function FromDelivered(r: Rec): string {
    "," + Member("delivered", BoolText(r.delivered),
    Optional("delivered_at", OptTimeText(r.deliveredAt), FromOpened(r)))
  }

  function FromSubject(r: Rec): string {
    "," + Member("subject", Quoted(r.header.subject), "," +
    Member("sent_at", TimeText(r.header.sentAt), FromDelivered(r)))
  }

  /** json.Marshal of a record. */
  function RecordJson(r: Rec): string {
    "{" + Member("group_id", Quoted(r.header.groupId), "," +
    Member("email_id", Quoted(r.header.emailId), "," +
    Member("to", Quoted(r.header.to), FromSubject(r))))
  }

  /** The text of the record a send writes, in full. */
  lemma FreshText(h: Header)
    requires TimeOk(h.sentAt)
    ensures RecordJson(NewRec(h)) ==
            "{\"group_id\":" + (Quoted(h.groupId) +
            (",\"email_id\":" + (Quoted(h.emailId) +
            (",\"to\":" + (Quoted(h.to) +
            (",\"subject\":" + (Quoted(h.subject) +
            (",\"sent_at\":" + (TimeJson(h.sentAt) +
            (",\"delivered\":" + ("false" +
            (",\"opened\":" + ("false" + (",\"open_count\":" + ("0" +
            (",\"clicked\":" + ("false" + (",\"click_count\":" + ("0" +
            (",\"failed\":" + ("false" + "}")))))))))))))))))))))
  {
    FreshOpened(h);
    FreshParts(h);
    var r := NewRec(h);
    hide Quoted, TimeJson, FromDelivered, FromOpened, Member, RecordJson, NewRec;
    FreshHeader(Quoted(h.groupId), Quoted(h.emailId), Quoted(h.to), Quoted(h.subject), TimeJson(h.sentAt),
                FromDelivered(r));
    Comma(",\"delivered\":", "delivered", "false", FromOpened(r));
  }

  lemma FreshHeader(g: string, e: string, to: string, s: string, at: string, rest: string)
    ensures "{" + Member("group_id", g, "," + Member("email_id", e, "," + Member("to", to, "," +
            Member("subject", s, "," + Member("sent_at", at, rest))))) ==
            "{\"group_id\":" + (g + (",\"email_id\":" + (e + (",\"to\":" + (to +
            (",\"subject\":" + (s + (",\"sent_at\":" + (at + rest)))))))))
  {
    hide Member;
    var fifth := "," + Member("sent_at", at, rest);
    var fourth := "," + Member("subject", s, fifth);
    var third := "," + Member("to", to, fourth);
    Comma(",\"sent_at\":", "sent_at", at, rest);
    Comma(",\"subject\":", "subject", s, fifth);
    Comma(",\"to\":", "to", to, fourth);
    Comma(",\"email_id\":", "email_id", e, third);
    FirstMember(g, "," + Member("email_id", e, third));
  }

  lemma FreshParts(h: Header)
    requires TimeOk(h.sentAt)
    ensures var r := NewRec(h);
            && FromDelivered(r) == "," + Member("delivered", "false", FromOpened(r))
            && RecordJson(r) ==
               "{" + Member("group_id", Quoted(h.groupId), "," + Member("email_id", Quoted(h.emailId), "," +
               Member("to", Quoted(h.to), "," + Member("subject", Quoted(h.subject), "," +
               Member("sent_at", TimeJson(h.sentAt), FromDelivered(r))))))
  {
    hide Quoted, TimeJson, Member, FromOpened;
  }

  lemma FreshOpened(h: Header)
    ensures FromOpened(NewRec(h)) ==
            ",\"opened\":" + ("false" + (",\"open_count\":" + ("0" +
            (",\"clicked\":" + ("false" + (",\"click_count\":" + ("0" +
            (",\"failed\":" + ("false" + "}")))))))))
  {
    FreshFlags(h);
    hide Member, FromFailed, FromClicked, FromOpened, NewRec;
    var r := NewRec(h);
    var clicks := "," + Member("click_count", "0", FromFailed(r));
    var opens := "," + Member("open_count", "0", FromClicked(r));
    Comma(",\"failed\":", "failed", "false", "}");
    Comma(",\"click_count\":", "click_count", "0", FromFailed(r));
    Comma(",\"clicked\":", "clicked", "false", clicks);
    Comma(",\"open_count\":", "open_count", "0", FromClicked(r));
    Comma(",\"opened\":", "opened", "false", opens);
  }

  lemma FreshFlags(h: Header)
    ensures var r := NewRec(h);
            && FromFailed(r) == "," + Member("failed", "false", "}")
            && FromClicked(r) == "," + Member("clicked", "false", "," + Member("click_count", "0", FromFailed(r)))
            && FromOpened(r) == "," + Member("opened", "false", "," + Member("open_count", "0", FromClicked(r)))
  {
    ZeroText();
    hide Member, IntText;
  }

  lemma ZeroText()
    ensures IntText(0) == "0"
  {
  }

  /** A further member, with its comma, key and colon as one literal. */
  lemma Comma(literal: string, key: string, value: string, rest: string)
    requires literal == ",\"" + key + "\":"
    ensures "," + Member(key, value, rest) == literal + (value + rest)
  {
  }

  lemma FirstMember(value: string, rest: string)
    ensures "{" + Member("group_id", value, rest) == "{\"group_id\":" + (value + rest)
  {
  }

  // ---- its length ----

  lemma IntBytes(n: int)
    ensures RawLen(IntText(n)) == IntLen(n)
  {
    AsciiLen(IntText(n));
  }

  lemma BoolBytes(b: bool)
    ensures RawLen(BoolText(b)) == BoolLen(b)
  {
    AsciiLen(BoolText(b));
  }

  /** An optional time member whose key, comma and colon take `key` bytes. */
  lemma OptTimeBytes(key: string, t: Option<int>, rest: string)
    requires OptTimeOk(t) && forall i :: 0 <= i < |key| ==> key[i] as int < 0x80
    ensures RawLen(Optional(key, OptTimeText(t), rest)) == OptTimeLen(|key| + 4, t) + RawLen(rest)
  {
    hide TimeText, TimeLen, Optional;
    OptionalBytes(key, OptTimeText(t), rest);
    if t.Some? { TimeBytes(t.value); }
  }

  lemma ListBytesOf<T>(key: string, l: seq<T>, text: T -> string, rest: string)
    requires forall i :: 0 <= i < |key| ==> key[i] as int < 0x80
    ensures RawLen(Optional(key, ListText(l, text), rest)) ==
            RawLen(rest) + if l == [] then 0 else |key| + 5 + ElementBytes(l, text)
  {
    hide Optional, Elements;
    OptionalBytes(key, ListText(l, text), rest);
    if l != [] {
      ElementsBytes(l, text, "");
      AsciiLen("[");
      RawLenConcat("[", Elements(l, text, ""));
    }
  }

  lemma FromFailedBytes(r: Rec)
    requires Encodable(r)
    ensures RawLen(FromFailed(r)) == 11 + BoolLen(r.failed) + OptTimeLen(13, r.failedAt)
  {
    hide Member, Optional, OptTimeText;
    var end := Optional("failed_at", OptTimeText(r.failedAt), "}");
    AsciiLen("}");
    OptTimeBytes("failed_at", r.failedAt, "}");
    BoolBytes(r.failed);
    MemberBytes("failed", BoolText(r.failed), end);
    CommaBytes(Member("failed", BoolText(r.failed), end));
  }

  lemma FromClickListsBytes(r: Rec)
    requires Encodable(r)
    ensures RawLen(FromClickLists(r)) ==
            (if r.clickEventIds == [] then 0 else 20 + IdBytes(r.clickEventIds))
            + (if r.clickList == [] then 0 else 15 + ClickBytes(r.clickList))
            + OptTimeLen(19, r.lastClickedAt) + RawLen(FromFailed(r))
  {
    hide Optional, OptTimeText, ListText, FromFailed;
    var times := Optional("last_clicked_at", OptTimeText(r.lastClickedAt), FromFailed(r));
    var clicks := Optional("click_list", ListText(r.clickList, ClickText), times);
    OptTimeBytes("last_clicked_at", r.lastClickedAt, FromFailed(r));
    ListBytesOf("click_list", r.clickList, ClickText, times);
    ListBytesOf("click_event_ids", r.clickEventIds, Quoted, clicks);
    ClicksBytes(r.clickList);
    IdsBytes(r.clickEventIds);
  }

  lemma FromClickedBytes(r: Rec)
    ensures RawLen(FromClicked(r)) == 26 + BoolLen(r.clicked) + IntLen(r.clickCount) + RawLen(FromClickLists(r))
  {
    hide Member, FromClickLists;
    var count := Member("click_count", IntText(r.clickCount), FromClickLists(r));
    IntBytes(r.clickCount);
    BoolBytes(r.clicked);
    MemberBytes("click_count", IntText(r.clickCount), FromClickLists(r));
    CommaBytes(count);
    MemberBytes("clicked", BoolText(r.clicked), "," + count);
    CommaBytes(Member("clicked", BoolText(r.clicked), "," + count));
  }

  lemma FromOpensBytes(r: Rec)
    requires Encodable(r)
    ensures RawLen(FromOpens(r)) ==
            (if r.openedAtList == [] then 0 else 19 + OpenBytes(r.openedAtList))
            + OptTimeLen(18, r.lastOpenedAt) + RawLen(FromClicked(r))
  {
    hide Optional, OptTimeText, ListText, FromClicked;
    var times := Optional("last_opened_at", OptTimeText(r.lastOpenedAt), FromClicked(r));
    OptTimeBytes("last_opened_at", r.lastOpenedAt, FromClicked(r));
    ListBytesOf("opened_at_list", r.openedAtList, OpenText, times);
    OpensBytes(r.openedAtList);
  }

  lemma FromOpenedBytes(r: Rec)
    ensures RawLen(FromOpened(r)) == 24 + BoolLen(r.wasOpened) + IntLen(r.openCount) + RawLen(FromOpens(r))
  {
    hide Member, FromOpens;
    var count := Member("open_count", IntText(r.openCount), FromOpens(r));
    IntBytes(r.openCount);
    BoolBytes(r.wasOpened);
    MemberBytes("open_count", IntText(r.openCount), FromOpens(r));
    CommaBytes(count);
    MemberBytes("opened", BoolText(r.wasOpened), "," + count);
    CommaBytes(Member("opened", BoolText(r.wasOpened), "," + count));
  }

  lemma FromDeliveredBytes(r: Rec)
    requires Encodable(r)
    ensures RawLen(FromDelivered(r)) ==
            13 + BoolLen(r.delivered) + OptTimeLen(16, r.deliveredAt) + RawLen(FromOpened(r))
  {
    hide Member, Optional, OptTimeText, FromOpened;
    var end := Optional("delivered_at", OptTimeText(r.deliveredAt), FromOpened(r));
    OptTimeBytes("delivered_at", r.deliveredAt, FromOpened(r));
    BoolBytes(r.delivered);
    MemberBytes("delivered", BoolText(r.delivered), end);
    CommaBytes(Member("delivered", BoolText(r.delivered), end));
  }

  /** Size counts exactly the UTF-8 bytes of the record's JSON text. */
  lemma RecordJsonBytes(r: Rec)
    requires Encodable(r)
    ensures RawLen(RecordJson(r)) == Size(r)
  {
    HeaderTextBytes(r);
    FromSubjectBytes(r);
    FromDeliveredBytes(r);
    FromOpenedBytes(r);
    FromOpensBytes(r);
    FromClickedBytes(r);
    FromClickListsBytes(r);
    FromFailedBytes(r);
    hide RecordJson, FromSubject, FromDelivered, FromOpened, FromOpens, FromClicked, FromClickLists, FromFailed,
         TimeLen, QuotedLen, IntLen, OpenBytes, ClickBytes, IdBytes;
  }

  lemma FromSubjectBytes(r: Rec)
    requires Encodable(r)
    ensures RawLen(FromSubject(r)) ==
            22 + QuotedLen(r.header.subject) + TimeLen(r.header.sentAt) + RawLen(FromDelivered(r))
  {
    hide Member, FromDelivered, Quoted, TimeText, QuotedLen, TimeLen;
    var sent := Member("sent_at", TimeText(r.header.sentAt), FromDelivered(r));
    TimeBytes(r.header.sentAt);
    QuotedBytes(r.header.subject);
    MemberBytes("sent_at", TimeText(r.header.sentAt), FromDelivered(r));
    CommaBytes(sent);
    MemberBytes("subject", Quoted(r.header.subject), "," + sent);
    CommaBytes(Member("subject", Quoted(r.header.subject), "," + sent));
  }

  lemma HeaderTextBytes(r: Rec)
    requires Encodable(r)
    ensures var h := r.header;
            RawLen(RecordJson(r)) ==
            30 + QuotedLen(h.groupId) + QuotedLen(h.emailId) + QuotedLen(h.to) + RawLen(FromSubject(r))
  {
    hide Member, FromSubject, Quoted, QuotedLen;
    var h := r.header;
    var to := Member("to", Quoted(h.to), FromSubject(r));
    var email := Member("email_id", Quoted(h.emailId), "," + to);
    var group := Member("group_id", Quoted(h.groupId), "," + email);
    QuotedBytes(h.to);
    QuotedBytes(h.emailId);
    QuotedBytes(h.groupId);
    MemberBytes("to", Quoted(h.to), FromSubject(r));
    CommaBytes(to);
    MemberBytes("email_id", Quoted(h.emailId), "," + to);
    CommaBytes(email);
    MemberBytes("group_id", Quoted(h.groupId), "," + email);
    AsciiLen("{");
    RawLenConcat("{", group);
  }

  // ---- it determines the record ----

  lemma TimeTextUnique(a: int, x: string, b: int, y: string)
    requires TimeOk(a) && TimeOk(b)
    ensures TimeText(a) + x == TimeText(b) + y ==> a == b && x == y
  {
    if TimeText(a) + x == TimeText(b) + y {
      TimeUnique(a, x, b, y);
    }
  }

  lemma ValueUnique(key: string, v: string, x: string, w: string, y: string)
    requires "," + Member(key, v, x) == "," + Member(key, w, y)
    ensures v + x == w + y
  {
    SameTail(",", Member(key, v, x), Member(key, w, y));
    MemberUnique(key, v, x, w, y);
  }

  /** A text goes on with one key only. */
  lemma OtherKey(key: string, other: string, k: nat, value: string, rest: string)
    requires k < |key| && k < |other| && key[k] != other[k]
    ensures !GoesOn("," + Member(other, value, rest), key)
  {
    var s := "," + Member(other, value, rest);
    assert s == ",\"" + other + ("\":" + (value + rest));
    assert s[k + 2] == other[k];
    assert (",\"" + key + "\"")[k + 2] == key[k];
    assert |s| >= |key| + 3 ==> s[..|key| + 3][k + 2] == s[k + 2];
  }

  lemma OtherOptional(key: string, other: string, k: nat, value: Option<string>, rest: string)
    requires k < |key| && k < |other| && key[k] != other[k] && !GoesOn(rest, key)
    ensures !GoesOn(Optional(other, value, rest), key)
  {
    hide GoesOn;
    if value.Some? { OtherKey(key, other, k, value.value, rest); }
  }

  lemma OptTimeUnique(key: string, t: Option<int>, x: string, u: Option<int>, y: string)
    requires OptTimeOk(t) && OptTimeOk(u) && !GoesOn(x, key) && !GoesOn(y, key)
    ensures Optional(key, OptTimeText(t), x) == Optional(key, OptTimeText(u), y) ==> t == u && x == y
  {
    if Optional(key, OptTimeText(t), x) == Optional(key, OptTimeText(u), y) {
      hide Optional, GoesOn, TimeText;
      OptionalUnique(key, OptTimeText(t), x, OptTimeText(u), y);
      if t.Some? { TimeTextUnique(t.value, x, u.value, y); }
    }
  }

  lemma {:induction false} ElementsEnd<T>(l: seq<T>, text: T -> string, rest: string)
    requires l != []
    ensures Elements(l, text, "") + rest == Elements(l, text, rest)
  {
    if |l| == 1 {
      assert text(l[0]) + ("]" + "") + rest == text(l[0]) + ("]" + rest);
    } else {
      ElementsEnd(l[1..], text, rest);
      assert text(l[0]) + ("," + Elements(l[1..], text, "")) + rest ==
             text(l[0]) + ("," + (Elements(l[1..], text, "") + rest));
    }
  }

  lemma ListUnique<T(!new)>(key: string, l: seq<T>, x: string, m: seq<T>, y: string, text: T -> string, ok: T -> bool)
    requires Optional(key, ListText(l, text), x) == Optional(key, ListText(m, text), y)
    requires Readable(text, ok) && (forall e :: e in l ==> ok(e)) && (forall e :: e in m ==> ok(e))
    requires !GoesOn(x, key) && !GoesOn(y, key)
    ensures l == m && x == y
  {
    hide Optional, GoesOn, Readable, Elements;
    OptionalUnique(key, ListText(l, text), x, ListText(m, text), y);
    if l != [] {
      var e, f := Elements(l, text, ""), Elements(m, text, "");
      assert "[" + e + x == "[" + (e + x) && "[" + f + y == "[" + (f + y);
      SameTail("[", e + x, f + y);
      ElementsEnd(l, text, x);
      ElementsEnd(m, text, y);
      ElementsUnique(l, x, m, y, text, ok);
    }
  }

  /** An entry and what follows it, piece by piece. */
  lemma OpenTextLayout(e: OpenEvent, rest: string)
    ensures OpenText(e) + rest ==
            "{\"event_id\":" + (Quoted(e.id) + (",\"opened_at\":" + (TimeText(e.at) + ("}" + rest))))
  {
    hide TimeText, Quoted;
    var tail := "," + Member("opened_at", TimeText(e.at), "}");
    assert tail + rest == ",\"opened_at\":" + (TimeText(e.at) + ("}" + rest));
    assert OpenText(e) + rest == "{\"event_id\":" + (Quoted(e.id) + (tail + rest));
  }

  lemma OpenTextUnique(a: OpenEvent, x: string, b: OpenEvent, y: string)
    requires TimeOk(a.at) && TimeOk(b.at)
    ensures OpenText(a) + x == OpenText(b) + y ==> a == b && x == y
  {
    OpenTextLayout(a, x);
    OpenTextLayout(b, y);
    hide TimeText, Quoted, OpenText;
    if OpenText(a) + x == OpenText(b) + y {
      var v, w := TimeText(a.at) + ("}" + x), TimeText(b.at) + ("}" + y);
      SameTail("{\"event_id\":", Quoted(a.id) + (",\"opened_at\":" + v), Quoted(b.id) + (",\"opened_at\":" + w));
      QuotedUnique(a.id, ",\"opened_at\":" + v, b.id, ",\"opened_at\":" + w);
      SameTail(",\"opened_at\":", v, w);
      TimeTextUnique(a.at, "}" + x, b.at, "}" + y);
      SameTail("}", x, y);
    }
  }

  lemma ClickTextLayout(e: ClickEvent, rest: string)
    ensures ClickText(e) + rest ==
            "{\"event_id\":" + (Quoted(e.id) + (",\"link\":" + (Quoted(e.link) +
            (",\"clicked_at\":" + (TimeText(e.at) + ("}" + rest))))))
  {
    hide TimeText, Quoted;
    var at := "," + Member("clicked_at", TimeText(e.at), "}");
    var link := "," + Member("link", Quoted(e.link), at);
    assert at + rest == ",\"clicked_at\":" + (TimeText(e.at) + ("}" + rest));
    assert link + rest == ",\"link\":" + (Quoted(e.link) + (at + rest));
    assert ClickText(e) + rest == "{\"event_id\":" + (Quoted(e.id) + (link + rest));
  }

  lemma ClickTextUnique(a: ClickEvent, x: string, b: ClickEvent, y: string)
    requires TimeOk(a.at) && TimeOk(b.at)
    ensures ClickText(a) + x == ClickText(b) + y ==> a == b && x == y
  {
    ClickTextLayout(a, x);
    ClickTextLayout(b, y);
    hide TimeText, Quoted, ClickText;
    if ClickText(a) + x == ClickText(b) + y {
      var v, w := TimeText(a.at) + ("}" + x), TimeText(b.at) + ("}" + y);
      var s, u := Quoted(a.link) + (",\"clicked_at\":" + v), Quoted(b.link) + (",\"clicked_at\":" + w);
      SameTail("{\"event_id\":", Quoted(a.id) + (",\"link\":" + s), Quoted(b.id) + (",\"link\":" + u));
      QuotedUnique(a.id, ",\"link\":" + s, b.id, ",\"link\":" + u);
      SameTail(",\"link\":", s, u);
      QuotedUnique(a.link, ",\"clicked_at\":" + v, b.link, ",\"clicked_at\":" + w);
      SameTail(",\"clicked_at\":", v, w);
      TimeTextUnique(a.at, "}" + x, b.at, "}" + y);
      SameTail("}", x, y);
    }
  }

  lemma EntriesReadable()
    ensures Readable(OpenText, (e: OpenEvent) => TimeOk(e.at))
    ensures Readable(ClickText, (e: ClickEvent) => TimeOk(e.at))
    ensures Readable(Quoted, (s: string) => true)
  {
    forall a: OpenEvent, x, b: OpenEvent, y | TimeOk(a.at) && TimeOk(b.at) && OpenText(a) + x == OpenText(b) + y
      ensures a == b && x == y { OpenTextUnique(a, x, b, y); }
    forall a: ClickEvent, x, b: ClickEvent, y | TimeOk(a.at) && TimeOk(b.at) && ClickText(a) + x == ClickText(b) + y
      ensures a == b && x == y { ClickTextUnique(a, x, b, y); }
    forall a, x, b, y | Quoted(a) + x == Quoted(b) + y
      ensures a == b && x == y { QuotedUnique(a, x, b, y); }
  }

  // Each part of the text determines its fields and the part after it.

  lemma FailedUnique(a: Rec, b: Rec)
    requires Encodable(a) && Encodable(b)
    ensures FromFailed(a) == FromFailed(b) ==> a.failed == b.failed && a.failedAt == b.failedAt
  {
    if FromFailed(a) == FromFailed(b) {
      hide Member, Optional, OptTimeText, BoolText;
      var x := Optional("failed_at", OptTimeText(a.failedAt), "}");
      var y := Optional("failed_at", OptTimeText(b.failedAt), "}");
      ValueUnique("failed", BoolText(a.failed), x, BoolText(b.failed), y);
      BoolUnique(a.failed, x, b.failed, y);
      OptTimeUnique("failed_at", a.failedAt, "}", b.failedAt, "}");
    }
  }

  lemma ClickListsUnique(a: Rec, b: Rec)
    requires Encodable(a) && Encodable(b)
    ensures FromClickLists(a) == FromClickLists(b) ==> a.clickEventIds == b.clickEventIds && a.clickList == b.clickList
    ensures FromClickLists(a) == FromClickLists(b) ==>
              a.lastClickedAt == b.lastClickedAt && FromFailed(a) == FromFailed(b)
  {
    if FromClickLists(a) == FromClickLists(b) {
      hide Optional, OptTimeText, ListText, FromFailed, GoesOn, Readable;
      EntriesReadable();
      ClickKeysDiffer(a);
      ClickKeysDiffer(b);
      ListUnique("click_event_ids", a.clickEventIds, AfterClickIds(a), b.clickEventIds, AfterClickIds(b),
                 Quoted, (s: string) => true);
      ListUnique("click_list", a.clickList, AfterClicks(a), b.clickList, AfterClicks(b),
                 ClickText, (e: ClickEvent) => TimeOk(e.at));
      OptTimeUnique("last_clicked_at", a.lastClickedAt, FromFailed(a), b.lastClickedAt, FromFailed(b));
    }
  }

  function AfterClicks(r: Rec): string {
    Optional("last_clicked_at", OptTimeText(r.lastClickedAt), FromFailed(r))
  }

  function AfterClickIds(r: Rec): string {
    Optional("click_list", ListText(r.clickList, ClickText), AfterClicks(r))
  }

  lemma ClickKeysDiffer(r: Rec)
    ensures !GoesOn(FromFailed(r), "last_clicked_at") && !GoesOn(AfterClicks(r), "click_list")
    ensures !GoesOn(AfterClickIds(r), "click_event_ids")
  {
    hide Member, Optional, OptTimeText, ListText, GoesOn, BoolText;
    var end := Optional("failed_at", OptTimeText(r.failedAt), "}");
    OtherKey("last_clicked_at", "failed", 0, BoolText(r.failed), end);
    OtherKey("click_list", "failed", 0, BoolText(r.failed), end);
    OtherKey("click_event_ids", "failed", 0, BoolText(r.failed), end);
    OtherOptional("click_list", "last_clicked_at", 0, OptTimeText(r.lastClickedAt), FromFailed(r));
    OtherOptional("click_event_ids", "last_clicked_at", 0, OptTimeText(r.lastClickedAt), FromFailed(r));
    OtherOptional("click_event_ids", "click_list", 6, ListText(r.clickList, ClickText), AfterClicks(r));
  }

  lemma ClickedUnique(a: Rec, b: Rec)
    ensures FromClicked(a) == FromClicked(b) ==> a.clicked == b.clicked && a.clickCount == b.clickCount
    ensures FromClicked(a) == FromClicked(b) ==> FromClickLists(a) == FromClickLists(b)
  {
    if FromClicked(a) == FromClicked(b) {
      FlagAndCount("clicked", "click_count", a.clicked, a.clickCount, FromClickLists(a),
                   b.clicked, b.clickCount, FromClickLists(b)) by { EndsClickCount(a); EndsClickCount(b); }
    }
  }

  lemma EndsClickCount(r: Rec)
    ensures EndsNumber(FromClickLists(r))
  {
    hide FromFailed, ListText, OptTimeText, Member;
    assert FromFailed(r)[0] == ',' by { StartsWithComma(r); }
  }

  lemma StartsWithComma(r: Rec)
    ensures FromFailed(r) != "" && FromFailed(r)[0] == ','
    ensures FromClicked(r) != "" && FromClicked(r)[0] == ','
  {
    hide Member;
  }

  lemma FlagAndCount(k: string, l: string, f: bool, n: int, x: string, g: bool, m: int, y: string)
    requires EndsNumber(x) && EndsNumber(y)
    requires "," + Member(k, BoolText(f), "," + Member(l, IntText(n), x)) ==
             "," + Member(k, BoolText(g), "," + Member(l, IntText(m), y))
    ensures f == g && n == m && x == y
  {
    hide Member, BoolText, IntText;
    var s, u := "," + Member(l, IntText(n), x), "," + Member(l, IntText(m), y);
    ValueUnique(k, BoolText(f), s, BoolText(g), u);
    BoolUnique(f, s, g, u);
    ValueUnique(l, IntText(n), x, IntText(m), y);
    IntUnique(n, x, m, y);
  }

  lemma OpensUnique(a: Rec, b: Rec)
    requires Encodable(a) && Encodable(b)
    ensures FromOpens(a) == FromOpens(b) ==> a.openedAtList == b.openedAtList && a.lastOpenedAt == b.lastOpenedAt
    ensures FromOpens(a) == FromOpens(b) ==> FromClicked(a) == FromClicked(b)
  {
    if FromOpens(a) == FromOpens(b) {
      hide Optional, OptTimeText, ListText, FromClicked, GoesOn, Readable;
      EntriesReadable();
      OpenKeysDiffer(a);
      OpenKeysDiffer(b);
      ListUnique<OpenEvent>("opened_at_list", a.openedAtList, AfterOpens(a), b.openedAtList, AfterOpens(b),
                            OpenText, (e: OpenEvent) => TimeOk(e.at));
      OptTimeUnique("last_opened_at", a.lastOpenedAt, FromClicked(a), b.lastOpenedAt, FromClicked(b));
    }
  }

  function AfterOpens(r: Rec): string {
    Optional("last_opened_at", OptTimeText(r.lastOpenedAt), FromClicked(r))
  }

  lemma OpenKeysDiffer(r: Rec)
    ensures !GoesOn(FromClicked(r), "last_opened_at") && !GoesOn(AfterOpens(r), "opened_at_list")
  {
    hide Member, Optional, OptTimeText, GoesOn, BoolText, FromClickLists;
    var end := "," + Member("click_count", IntText(r.clickCount), FromClickLists(r));
    OtherKey("last_opened_at", "clicked", 0, BoolText(r.clicked), end);
    OtherKey("opened_at_list", "clicked", 0, BoolText(r.clicked), end);
    OtherOptional("opened_at_list", "last_opened_at", 0, OptTimeText(r.lastOpenedAt), FromClicked(r));
  }

  lemma OpenedUnique(a: Rec, b: Rec)
    ensures FromOpened(a) == FromOpened(b) ==> a.wasOpened == b.wasOpened && a.openCount == b.openCount
    ensures FromOpened(a) == FromOpened(b) ==> FromOpens(a) == FromOpens(b)
  {
    if FromOpened(a) == FromOpened(b) {
      FlagAndCount("opened", "open_count", a.wasOpened, a.openCount, FromOpens(a),
                   b.wasOpened, b.openCount, FromOpens(b)) by { EndsOpenCount(a); EndsOpenCount(b); }
    }
  }

  lemma EndsOpenCount(r: Rec)
    ensures EndsNumber(FromOpens(r))
  {
    hide FromClicked, ListText, OptTimeText, Member;
    assert FromClicked(r)[0] == ',' by { StartsWithComma(r); }
  }

  lemma DeliveredUnique(a: Rec, b: Rec)
    requires Encodable(a) && Encodable(b)
    ensures FromDelivered(a) == FromDelivered(b) ==> a.delivered == b.delivered && a.deliveredAt == b.deliveredAt
    ensures FromDelivered(a) == FromDelivered(b) ==> FromOpened(a) == FromOpened(b)
  {
    if FromDelivered(a) == FromDelivered(b) {
      hide Member, Optional, OptTimeText, BoolText, GoesOn, FromOpened;
      var x := Optional("delivered_at", OptTimeText(a.deliveredAt), FromOpened(a));
      var y := Optional("delivered_at", OptTimeText(b.deliveredAt), FromOpened(b));
      ValueUnique("delivered", BoolText(a.delivered), x, BoolText(b.delivered), y);
      BoolUnique(a.delivered, x, b.delivered, y);
      OpenedKeyDiffers(a);
      OpenedKeyDiffers(b);
      OptTimeUnique("delivered_at", a.deliveredAt, FromOpened(a), b.deliveredAt, FromOpened(b));
    }
  }

  lemma OpenedKeyDiffers(r: Rec)
    ensures !GoesOn(FromOpened(r), "delivered_at")
  {
    hide Member, GoesOn, BoolText, FromOpens;
    OtherKey("delivered_at", "opened", 0, BoolText(r.wasOpened),
             "," + Member("open_count", IntText(r.openCount), FromOpens(r)));
  }

  lemma SubjectUnique(a: Rec, b: Rec)
    requires Encodable(a) && Encodable(b)
    ensures FromSubject(a) == FromSubject(b) ==>
              a.header.subject == b.header.subject && a.header.sentAt == b.header.sentAt
    ensures FromSubject(a) == FromSubject(b) ==> FromDelivered(a) == FromDelivered(b)
  {
    if FromSubject(a) == FromSubject(b) {
      hide Member, Quoted, TimeText, FromDelivered;
      var x := "," + Member("sent_at", TimeText(a.header.sentAt), FromDelivered(a));
      var y := "," + Member("sent_at", TimeText(b.header.sentAt), FromDelivered(b));
      ValueUnique("subject", Quoted(a.header.subject), x, Quoted(b.header.subject), y);
      QuotedUnique(a.header.subject, x, b.header.subject, y);
      ValueUnique("sent_at", TimeText(a.header.sentAt), FromDelivered(a), TimeText(b.header.sentAt), FromDelivered(b));
      TimeTextUnique(a.header.sentAt, FromDelivered(a), b.header.sentAt, FromDelivered(b));
    }
  }

  lemma HeaderUnique(a: Rec, b: Rec)
    ensures RecordJson(a) == RecordJson(b) ==>
              a.header.groupId == b.header.groupId && a.header.emailId == b.header.emailId
    ensures RecordJson(a) == RecordJson(b) ==> a.header.to == b.header.to && FromSubject(a) == FromSubject(b)
  {
    if RecordJson(a) == RecordJson(b) {
      hide Member, Quoted, FromSubject;
      var s := "," + Member("to", Quoted(a.header.to), FromSubject(a));
      var u := "," + Member("to", Quoted(b.header.to), FromSubject(b));
      var x := "," + Member("email_id", Quoted(a.header.emailId), s);
      var y := "," + Member("email_id", Quoted(b.header.emailId), u);
      SameTail("{", Member("group_id", Quoted(a.header.groupId), x), Member("group_id", Quoted(b.header.groupId), y));
      MemberUnique("group_id", Quoted(a.header.groupId), x, Quoted(b.header.groupId), y);
      QuotedUnique(a.header.groupId, x, b.header.groupId, y);
      ValueUnique("email_id", Quoted(a.header.emailId), s, Quoted(b.header.emailId), u);
      QuotedUnique(a.header.emailId, s, b.header.emailId, u);
      ValueUnique("to", Quoted(a.header.to), FromSubject(a), Quoted(b.header.to), FromSubject(b));
      QuotedUnique(a.header.to, FromSubject(a), b.header.to, FromSubject(b));
    }
  }

  /** Different records have different texts, so the stored text determines the record. */
  lemma RecordJsonUnique(a: Rec, b: Rec)
    requires Encodable(a) && Encodable(b)
    ensures RecordJson(a) == RecordJson(b) ==> a == b
  {
    if RecordJson(a) == RecordJson(b) {
      hide RecordJson, FromSubject, FromDelivered, FromOpened, FromOpens, FromClicked, FromClickLists, FromFailed,
           Encodable;
      HeaderUnique(a, b);
      SubjectUnique(a, b);
      DeliveredUnique(a, b);
      OpenedUnique(a, b);
      OpensUnique(a, b);
      ClickedUnique(a, b);
      ClickListsUnique(a, b);
      FailedUnique(a, b);
    }
  }

  /** The stored text of every reachable record is below the bucket's value limit. */
  lemma ReachableTextsFit(h: Header, evs: seq<Event>)
    requires HeaderOk(h) && EventsOk(evs)
    ensures RawLen(RecordJson(Fold(NewRec(h), evs))) <= 50_236 < 65_536
  {
    hide RecordJson, Fold, Size;
    ReachableRecordsFit(h, evs);
    RecordJsonBytes(Fold(NewRec(h), evs));
  }
}
