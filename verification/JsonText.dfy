/** The texts behind the byte counts: decimal numbers, RFC 3339 instants, escaped
    strings and whole records as encoding/json writes them, with what can be read
    back from them and how many UTF-8 bytes they take. */
module JsonText {
  import opened Wire
  import opened Record

  // ---- decimal numbers ----

  function DigitChar(n: nat): (c: char)
    requires n < 10
    ensures Digit(c) && DigitOf(c) == n
  {
    ('0' as int + n) as char
  }

  function DigitOf(c: char): int { c as int - '0' as int }

  /** n in w digits, with leading zeros. */
  function Padded(n: nat, w: nat): (s: string)
    ensures |s| == w && AllDigits(s)
  {
    if w == 0 then "" else Padded(n / 10, w - 1) + [DigitChar(n % 10)]
  }

  predicate AllDigits(s: string) {
    forall i :: 0 <= i < |s| ==> Digit(s[i])
  }

  /** The number a row of digits stands for. */
  function DigitsValue(s: string): int {
    if s == "" then 0 else 10 * DigitsValue(s[..|s| - 1]) + DigitOf(s[|s| - 1])
  }

  lemma {:induction false} PaddedValue(n: nat, w: nat)
    requires n < Pow10(w)
    ensures DigitsValue(Padded(n, w)) == n
  {
    if w > 0 {
      PaddedValue(n / 10, w - 1);
      var s := Padded(n, w);
      assert s[..w - 1] == Padded(n / 10, w - 1);
    }
  }

  function NatText(n: nat): (s: string)
    ensures |s| == NatDigits(n) && AllDigits(s)
  {
    if n < 10 then [DigitChar(n)] else NatText(n / 10) + [DigitChar(n % 10)]
  }

  /** strconv.Itoa */
  function IntText(n: int): (s: string)
    ensures |s| == IntLen(n)
  {
    if n < 0 then "-" + NatText(-n) else NatText(n)
  }

  function IntValue(s: string): int {
    if s != "" && s[0] == '-' then -DigitsValue(s[1..]) else DigitsValue(s)
  }

  lemma {:induction false} NatValue(n: nat)
    ensures DigitsValue(NatText(n)) == n
  {
    var s := NatText(n);
    if n < 10 {
      assert s[..0] == "";
    } else {
      NatValue(n / 10);
      assert s[..|s| - 1] == NatText(n / 10);
    }
  }

  /** The decimal text of a number is read back as that number. */
  lemma IntReadsBack(n: int)
    ensures IntValue(IntText(n)) == n
  {
    if n < 0 {
      NatValue(-n);
      assert IntText(n)[1..] == NatText(-n);
    } else {
      NatValue(n);
    }
  }

  // ---- the calendar ----

  predicate Leap(y: nat) {
    y % 4 == 0 && (y % 100 != 0 || y % 400 == 0)
  }

  /** Days from the start of year 0 to the start of year y: one leap day for each
      leap year before y. */
  function DaysBeforeYear(y: nat): nat {
    365 * y + (y + 3) / 4 - (y + 99) / 100 + (y + 399) / 400
  }

  lemma FourthYears(y: nat)
    ensures (y + 4) / 4 == (y + 3) / 4 + if y % 4 == 0 then 1 else 0
  {
  }

  lemma Centuries(y: nat)
    ensures (y + 100) / 100 == (y + 99) / 100 + if y % 100 == 0 then 1 else 0
  {
    var q, r := y / 100, y % 100;
    assert y == 100 * q + r;
    assert (y + 100) / 100 == q + 1;
    assert (y + 99) / 100 == if r == 0 then q else q + 1;
  }

  lemma CenturiesAreFourthYears(y: nat)
    ensures y % 100 == 0 ==> y % 4 == 0
  {
    if y % 100 == 0 {
      assert y == 4 * (25 * (y / 100));
      MultipleOfFour(25 * (y / 100));
    }
  }

  lemma MultipleOfFour(k: nat)
    ensures 4 * k % 4 == 0
  {
  }

  lemma FourthCenturies(y: nat)
    ensures (y + 400) / 400 == (y + 399) / 400 + if y % 400 == 0 then 1 else 0
    ensures y % 400 == 0 ==> y % 100 == 0
  {
  }

  lemma YearLength(y: nat)
    ensures DaysBeforeYear(0) == 0
    ensures DaysBeforeYear(y + 1) == DaysBeforeYear(y) + if Leap(y) then 366 else 365
  {
    FourthYears(y);
    Centuries(y);
    CenturiesAreFourthYears(y);
    FourthCenturies(y);
  }

  function MonthLength(y: nat, m: nat): nat
    requires 1 <= m <= 12
  {
    if m == 2 then (if Leap(y) then 29 else 28)
    else if m == 4 || m == 6 || m == 9 || m == 11 then 30 else 31
  }

  /** Days from the start of year y to the start of its month m; m == 13 is the next year. */
  function DaysBeforeMonth(y: nat, m: nat): nat
    requires 1 <= m <= 13
  {
    if m == 1 then 0 else DaysBeforeMonth(y, m - 1) + MonthLength(y, m - 1)
  }

  lemma MonthsFillYear(y: nat)
    ensures DaysBeforeMonth(y, 13) == if Leap(y) then 366 else 365
  {
    assert DaysBeforeMonth(y, 2) == 31;
    assert DaysBeforeMonth(y, 4) == DaysBeforeMonth(y, 3) + 31;
    assert DaysBeforeMonth(y, 6) == DaysBeforeMonth(y, 4) + 61;
    assert DaysBeforeMonth(y, 8) == DaysBeforeMonth(y, 6) + 61;
    assert DaysBeforeMonth(y, 10) == DaysBeforeMonth(y, 8) + 61;
    assert DaysBeforeMonth(y, 12) == DaysBeforeMonth(y, 10) + 61;
  }

  /** The year that day d falls in, searched from year y on. */
  function YearFrom(d: nat, y: nat): (r: nat)
    requires DaysBeforeYear(y) <= d
    ensures DaysBeforeYear(r) <= d < DaysBeforeYear(r + 1)
    decreases d - DaysBeforeYear(y)
  {
    YearLength(y);
    if d < DaysBeforeYear(y + 1) then y else YearFrom(d, y + 1)
  }

  function YearOf(d: nat): (y: nat)
    ensures DaysBeforeYear(y) <= d < DaysBeforeYear(y + 1)
  {
    YearFrom(d, 0)
  }

  /** The month that day d of year y falls in, searched from month m on. */
  function MonthFrom(y: nat, d: nat, m: nat): (r: nat)
    requires 1 <= m <= 12 && DaysBeforeMonth(y, m) <= d < DaysBeforeMonth(y, 13)
    ensures 1 <= r <= 12 && DaysBeforeMonth(y, r) <= d < DaysBeforeMonth(y, r + 1)
    decreases 12 - m
  {
    if m == 12 || d < DaysBeforeMonth(y, m + 1) then m else MonthFrom(y, d, m + 1)
  }

  datatype Date = Date(year: nat, month: nat, day: nat)

  /** The Gregorian date of day d. */
  function DateOf(d: nat): (r: Date)
    ensures 1 <= r.month <= 12 && 1 <= r.day <= MonthLength(r.year, r.month)
    ensures DayNumber(r) == d
  {
    var y := YearOf(d);
    var inYear := d - DaysBeforeYear(y);
    YearLength(y);
    MonthsFillYear(y);
    var m := MonthFrom(y, inYear, 1);
    Date(y, m, inYear - DaysBeforeMonth(y, m) + 1)
  }

  function DayNumber(r: Date): int
    requires 1 <= r.month <= 12
  {
    DaysBeforeYear(r.year) + DaysBeforeMonth(r.year, r.month) + r.day - 1
  }

  lemma {:induction false} YearsGrow(a: nat, b: nat)
    requires a <= b
    ensures DaysBeforeYear(a) <= DaysBeforeYear(b)
    decreases b
  {
    if a < b {
      YearsGrow(a, b - 1);
      YearLength(b - 1);
    }
  }

  /** JSON can hold an instant exactly if it lies in one of the years 0 to 9999. */
  lemma TimeOkIsYear(t: nat)
    ensures TimeOk(t) <==> YearOf(t / DAY) <= 9999
  {
    var y := YearOf(t / DAY);
    assert DaysBeforeYear(10_000) == 3_652_425;
    if y <= 9999 { YearsGrow(y + 1, 10_000); } else { YearsGrow(10_000, y); }
  }

  // ---- instants ----

  /** A fraction of w digits without its trailing zeros. */
  function FractionText(n: nat, w: nat): (s: string)
    ensures |s| == FractionDigits(n, w) && AllDigits(s)
  {
    if n == 0 || w == 0 then ""
    else if n % 10 == 0 then FractionText(n / 10, w - 1)
    else Padded(n, w)
  }

  lemma TimesTen(v: int, k: nat)
    ensures v * Pow10(k + 1) == 10 * (v * Pow10(k))
  {
  }

  lemma {:induction false} FractionValue(n: nat, w: nat)
    requires n < Pow10(w)
    ensures DigitsValue(FractionText(n, w)) * Pow10(w - |FractionText(n, w)|) == n
  {
    if n != 0 && w != 0 {
      if n % 10 == 0 {
        FractionValue(n / 10, w - 1);
        TimesTen(DigitsValue(FractionText(n, w)), w - 1 - |FractionText(n, w)|);
      } else {
        PaddedValue(n, w);
        assert Pow10(0) == 1;
      }
    }
  }

  /** The characters of an instant's text: none of them needs an escape. */
  predicate Plain(s: string) {
    forall i :: 0 <= i < |s| ==> Digit(s[i]) || s[i] == '-' || s[i] == 'T' || s[i] == ':' || s[i] == '.' || s[i] == 'Z'
  }

  lemma PlainJoin(a: string, b: string)
    requires Plain(a) && Plain(b)
    ensures Plain(a + b)
  {
  }

  function DateText(d: Date): (s: string)
    ensures |s| == 10 && s[0..4] == Padded(d.year, 4) && s[5..7] == Padded(d.month, 2) && s[8..10] == Padded(d.day, 2)
    ensures Plain(s)
  {
    Padded(d.year, 4) + "-" + Padded(d.month, 2) + "-" + Padded(d.day, 2)
  }

  function ClockText(second: nat): (s: string)
    ensures |s| == 8 && s[0..2] == Padded(second / 3600, 2)
    ensures s[3..5] == Padded(second / 60 % 60, 2) && s[6..8] == Padded(second % 60, 2)
    ensures Plain(s)
  {
    Padded(second / 3600, 2) + ":" + Padded(second / 60 % 60, 2) + ":" + Padded(second % 60, 2)
  }

  function FractionPart(frac: nat): (s: string)
    ensures |s| == if frac == 0 then 0 else 1 + FractionDigits(frac, 9)
    ensures Plain(s)
  {
    if frac == 0 then "" else "." + FractionText(frac, 9)
  }

  /** A UTC instant in RFC 3339 form, with as many fraction digits as needed. */
  function TimeBody(t: int): (s: string)
    requires TimeOk(t)
  {
    DateText(DateOf(t / DAY)) + "T" + ClockText(t % DAY / NANOS) + FractionPart(t % NANOS) + "Z"
  }

  /** time.Time.MarshalJSON */
  function TimeJson(t: int): string
    requires TimeOk(t)
  {
    "\"" + TimeBody(t) + "\""
  }

  /** Reading such a text. */
  function ReadTime(s: string): int
    requires |s| >= 22
  {
    var y, mo, d := DigitsValue(s[1..5]), DigitsValue(s[6..8]), DigitsValue(s[9..11]);
    var second := 3600 * DigitsValue(s[12..14]) + 60 * DigitsValue(s[15..17]) + DigitsValue(s[18..20]);
    var frac := if s[20] == '.' && |s| > 22 then s[21..|s| - 2] else "";
    if y < 0 || !(1 <= mo <= 12) || d < 0 || |frac| > 9 then 0
    else (DayNumber(Date(y, mo, d)) * 86_400 + second) * NANOS + DigitsValue(frac) * Pow10(9 - |frac|)
  }

  lemma TimeBodyPlain(t: int)
    requires TimeOk(t)
    ensures Plain(TimeBody(t)) && |TimeBody(t)| == TimeLen(t) - 2
  {
    hide Plain, DateOf, DateText, ClockText, FractionPart, FractionDigits;
    var d, c, f := DateText(DateOf(t / DAY)), ClockText(t % DAY / NANOS), FractionPart(t % NANOS);
    PlainMarks();
    PlainJoin(d, "T");
    PlainJoin(d + "T", c);
    PlainJoin(d + "T" + c, f);
    PlainJoin(d + "T" + c + f, "Z");
  }

  lemma PlainMarks()
    ensures Plain("T") && Plain("Z")
  {
  }

  /** A stored instant takes exactly TimeLen bytes. */
  lemma TimeJsonLen(t: int)
    requires TimeOk(t)
    ensures |TimeJson(t)| == TimeLen(t)
  {
    hide TimeBody, TimeLen;
    TimeBodyPlain(t);
  }

  /** A time of day is its hours, minutes and seconds. */
  lemma ClockParts(second: nat)
    requires second < 86_400
    ensures second / 3600 < 24 && second / 60 % 60 < 60 && second % 60 < 60
    ensures 3600 * (second / 3600) + 60 * (second / 60 % 60) + second % 60 == second
  {
    assert second / 60 / 60 == second / 3600;
  }

  lemma InstantParts(t: nat)
    ensures t == (t / DAY * 86_400 + t % DAY / NANOS) * NANOS + t % NANOS
    ensures t % DAY / NANOS < 86_400
  {
    var day, rest := t / DAY, t % DAY;
    assert rest == rest / NANOS * NANOS + rest % NANOS;
    assert t == (day * 86_400) * NANOS + rest;
    assert t % NANOS == rest % NANOS;
  }

  /** The parts of a text of this layout stand where they are read. */
  lemma Layout(d: string, c: string, f: string)
    requires |d| == 10 && |c| == 8
    ensures var x := "\"" + (d + "T" + c + f + "Z") + "\"";
            && |x| >= 22 && x[1..5] == d[0..4] && x[6..8] == d[5..7] && x[9..11] == d[8..10]
            && x[12..14] == c[0..2] && x[15..17] == c[3..5] && x[18..20] == c[6..8] && x[20..] == f + "Z\""
  {
    var x := "\"" + (d + "T" + c + f + "Z") + "\"";
    assert x[1..11] == d && x[12..20] == c;
    assert x[1..5] == x[1..11][0..4] && x[6..8] == x[1..11][5..7] && x[9..11] == x[1..11][8..10];
    assert x[12..14] == x[12..20][0..2] && x[15..17] == x[12..20][3..5] && x[18..20] == x[12..20][6..8];
  }

  lemma TimeJsonParts(t: int)
    requires TimeOk(t)
    ensures var x, date, second, frac := TimeJson(t), DateOf(t / DAY), t % DAY / NANOS, t % NANOS;
            && |x| >= 22 && x[1..5] == Padded(date.year, 4) && x[6..8] == Padded(date.month, 2)
            && x[9..11] == Padded(date.day, 2) && x[12..14] == Padded(second / 3600, 2)
            && x[15..17] == Padded(second / 60 % 60, 2) && x[18..20] == Padded(second % 60, 2)
            && x[20..] == FractionPart(frac) + "Z\""
  {
    hide DateOf, Padded, DateText, ClockText, FractionPart, Plain;
    Layout(DateText(DateOf(t / DAY)), ClockText(t % DAY / NANOS), FractionPart(t % NANOS));
  }

  lemma FractionReadsBack(x: string, frac: nat)
    requires frac < NANOS && |x| >= 22
    requires x[20..] == FractionPart(frac) + "Z\""
    ensures var f := if x[20] == '.' && |x| > 22 then x[21..|x| - 2] else "";
            |f| <= 9 && DigitsValue(f) * Pow10(9 - |f|) == frac
  {
    assert x[20] == x[20..][0];
    if frac == 0 {
      assert x[20] == 'Z';
    } else {
      assert Pow10(9) == 1_000_000_000 by { assert Pow10(4) == 10_000; assert Pow10(8) == 10_000 * Pow10(4); }
      var f := FractionText(frac, 9);
      FractionValue(frac, 9);
      assert x[21..|x| - 2] == x[20..][1..|x| - 22] == f;
    }
  }

  /** The text of an instant is read back as that instant. */
  lemma TimeReadsBack(t: int)
    requires TimeOk(t)
    ensures |TimeJson(t)| >= 22 && ReadTime(TimeJson(t)) == t
  {
    hide TimeJson, DateOf, Padded, FractionPart, DigitsValue, DayNumber, YearOf;
    var x, date, second, frac := TimeJson(t), DateOf(t / DAY), t % DAY / NANOS, t % NANOS;
    TimeJsonParts(t);
    InstantParts(t);
    ClockParts(second);
    DateFits(t);
    assert Pow10(2) == 100 && Pow10(4) == 10_000;
    PaddedValue(date.year, 4);
    PaddedValue(date.month, 2);
    PaddedValue(date.day, 2);
    PaddedValue(second / 3600, 2);
    PaddedValue(second / 60 % 60, 2);
    PaddedValue(second % 60, 2);
    FractionReadsBack(x, frac);
  }

  lemma DateFits(t: int)
    requires TimeOk(t)
    ensures var date := DateOf(t / DAY);
            && date.year <= 9999 && 1 <= date.month <= 12 && 1 <= date.day <= 31 && DayNumber(date) == t / DAY
  {
    TimeOkIsYear(t);
  }

  /** Go's zero time is the start of year 1. */
  lemma ZeroTimeText()
    ensures TimeJson(ZERO_TIME) == "\"0001-01-01T00:00:00Z\""
  {
    ZeroDate();
    OnesAndZeros();
    hide DateOf, Padded;
    assert ZERO_TIME / DAY == 366 && ZERO_TIME % DAY == 0 && ZERO_TIME % NANOS == 0;
  }

  lemma OnesAndZeros()
    ensures Padded(0, 2) == "00" && Padded(1, 2) == "01" && Padded(1, 4) == "0001"
  {
    assert Padded(0, 1) == "0" && Padded(1, 1) == "1" && Padded(0, 2) == "00" && Padded(0, 3) == "000";
  }

  lemma ZeroDate()
    ensures DateOf(366) == Date(1, 1, 1)
  {
    YearIs(366, 1) by { assert DaysBeforeYear(1) == 366 && DaysBeforeYear(2) == 731; }
    StartOfYear(366, 1);
  }

  /** The first day of a year is the first of January. */
  lemma StartOfYear(d: nat, y: nat)
    requires YearOf(d) == y && d == DaysBeforeYear(y)
    ensures DateOf(d) == Date(y, 1, 1)
  {
    hide DaysBeforeYear, YearOf;
    January(y);
    hide DaysBeforeMonth;
    assert MonthFrom(y, 0, 1) == 1;
  }

  lemma January(y: nat)
    ensures DaysBeforeMonth(y, 1) == 0 && DaysBeforeMonth(y, 2) == 31 && DaysBeforeMonth(y, 13) >= 365
  {
    MonthsFillYear(y);
  }

  /** A day falls in exactly one year. */
  lemma YearIs(d: nat, y: nat)
    requires DaysBeforeYear(y) <= d < DaysBeforeYear(y + 1)
    ensures YearOf(d) == y
  {
    hide DaysBeforeYear;
    var z := YearOf(d);
    if z < y { YearsGrow(z + 1, y); }
    if y < z { YearsGrow(y + 1, z); }
  }

  // ---- strings ----

  function HexChar(n: nat): (c: char)
    requires n < 16
    ensures c as int < 0x80 && HexOf(c) == n
  {
    if n < 10 then ('0' as int + n) as char else ('a' as int + n - 10) as char
  }

  function HexOf(c: char): int {
    if Digit(c) then c as int - '0' as int else c as int - 'a' as int + 10
  }

  /** Characters written as \u and four hexadecimal digits: controls without a short
      form, the HTML characters, and the two line separators of JavaScript. */
  predicate LongEscape(c: char) {
    var n := c as int;
    (n < 0x20 && n != 8 && n != 9 && n != 10 && n != 12 && n != 13) ||
    c == '<' || c == '>' || c == '&' || n == 0x2028 || n == 0x2029
  }

  function EscapeChar(c: char): (s: string)
    ensures s != ""
  {
    var n := c as int;
    if c == '"' then "\\\"" else if c == '\\' then "\\\\"
    else if n == 8 then "\\b" else if n == 9 then "\\t" else if n == 10 then "\\n"
    else if n == 12 then "\\f" else if n == 13 then "\\r"
    else if LongEscape(c) then
      ['\\', 'u', HexChar(n / 4096 % 16), HexChar(n / 256 % 16), HexChar(n / 16 % 16), HexChar(n % 16)]
    else [c]
  }

  function Escaped(s: string): string {
    if s == "" then "" else EscapeChar(s[0]) + Escaped(s[1..])
  }

  function Quoted(s: string): string {
    "\"" + Escaped(s) + "\""
  }

  lemma {:induction false} RawLenConcat(a: string, b: string)
    ensures RawLen(a + b) == RawLen(a) + RawLen(b)
  {
    if a == "" {
      assert a + b == b;
    } else {
      assert (a + b)[1..] == a[1..] + b;
      RawLenConcat(a[1..], b);
    }
  }

  lemma EscapeCharBytes(c: char)
    ensures RawLen(EscapeChar(c)) == EscapedWidth(c)
  {
    var s := EscapeChar(c);
    if s != [c] {
      AsciiLen(s);
    } else {
      assert s[1..] == "";
    }
  }

  /** An escaped string takes exactly EscapedLen bytes. */
  lemma {:induction false} EscapedBytes(s: string)
    ensures RawLen(Escaped(s)) == EscapedLen(s)
  {
    if s != "" {
      EscapeCharBytes(s[0]);
      EscapedBytes(s[1..]);
      RawLenConcat(EscapeChar(s[0]), Escaped(s[1..]));
    }
  }

  lemma QuotedBytes(s: string)
    ensures RawLen(Quoted(s)) == QuotedLen(s)
  {
    EscapedBytes(s);
    AsciiLen("\"");
    RawLenConcat("\"" + Escaped(s), "\"");
    RawLenConcat("\"", Escaped(s));
  }

  /** What a short escape stands for. */
  function Unescape(c: char): char {
    if c == 'b' then 8 as char else if c == 't' then 9 as char else if c == 'n' then 10 as char
    else if c == 'f' then 12 as char else if c == 'r' then 13 as char else c
  }

  /** Reading the characters of a JSON string up to its closing quote: the string and
      what follows the quote. */
  function ReadString(s: string): Option<(string, string)>
    decreases |s|
  {
    if s == "" then None
    else if s[0] == '"' then Some(("", s[1..]))
    else if s[0] != '\\' then Prepend(s[0], ReadString(s[1..]))
    else if |s| >= 2 && s[1] != 'u' then Prepend(Unescape(s[1]), ReadString(s[2..]))
    else if |s| >= 6 then
      var n := 4096 * HexOf(s[2]) + 256 * HexOf(s[3]) + 16 * HexOf(s[4]) + HexOf(s[5]);
      if 0 <= n < 0xD800 then Prepend(n as char, ReadString(s[6..])) else None
    else None
  }

  function Prepend(c: char, r: Option<(string, string)>): Option<(string, string)> {
    if r.None? then None else Some(([c] + r.value.0, r.value.1))
  }

  lemma HexDigits(n: nat)
    requires n < 0x1_0000
    ensures n == 4096 * (n / 4096 % 16) + 256 * (n / 256 % 16) + 16 * (n / 16 % 16) + n % 16
  {
    var a, b, c := n / 16, n / 256, n / 4096;
    assert b == a / 16 && c == b / 16;
    assert n == 16 * a + n % 16 && a == 16 * b + a % 16 && b == 16 * c + b % 16 && c == c % 16;
  }

  lemma ReadEscape(c: char, rest: string)
    ensures ReadString(EscapeChar(c) + rest) == Prepend(c, ReadString(rest))
  {
    hide ReadString;
    var s := EscapeChar(c) + rest;
    ReadStringLaw(s);
    if LongEscape(c) {
      assert s[6..] == rest;
      HexDigits(c as int);
    } else if |EscapeChar(c)| == 2 {
      assert s[2..] == rest;
    } else {
      assert s[1..] == rest;
    }
  }

  lemma ReadStringLaw(s: string)
    requires s != ""
    ensures s[0] == '"' ==> ReadString(s) == Some(("", s[1..]))
    ensures s[0] != '"' && s[0] != '\\' ==> ReadString(s) == Prepend(s[0], ReadString(s[1..]))
    ensures s[0] == '\\' && |s| >= 2 && s[1] != 'u' ==> ReadString(s) == Prepend(Unescape(s[1]), ReadString(s[2..]))
    ensures s[0] == '\\' && |s| >= 6 && s[1] == 'u' ==>
              var n := 4096 * HexOf(s[2]) + 256 * HexOf(s[3]) + 16 * HexOf(s[4]) + HexOf(s[5]);
              0 <= n < 0xD800 ==> ReadString(s) == Prepend(n as char, ReadString(s[6..]))
  {
  }

  /** A quoted string is read back, and so is whatever follows it. */
  lemma {:induction false} StringReadsBack(s: string, rest: string)
    ensures ReadString(Escaped(s) + "\"" + rest) == Some((s, rest))
  {
    hide ReadString;
    if s == "" {
      assert Escaped(s) + "\"" + rest == "\"" + rest;
      ReadStringLaw("\"" + rest);
    } else {
      StringReadsBack(s[1..], rest);
      assert Escaped(s) + "\"" + rest == EscapeChar(s[0]) + (Escaped(s[1..]) + "\"" + rest);
      ReadEscape(s[0], Escaped(s[1..]) + "\"" + rest);
      assert [s[0]] + s[1..] == s;
    }
  }

  // ---- reading a value and what follows it ----

  lemma AfterQuote(s: string, rest: string)
    ensures ("\"" + s + "\"" + rest)[1..] == s + "\"" + rest
  {
  }

  /** The value texts of two equal texts are equal, and so is what follows them. */
  lemma QuotedUnique(a: string, x: string, b: string, y: string)
    requires Quoted(a) + x == Quoted(b) + y
    ensures a == b && x == y
  {
    StringReadsBack(a, x);
    StringReadsBack(b, y);
    hide Escaped, ReadString;
    AfterQuote(Escaped(a), x);
    AfterQuote(Escaped(b), y);
  }

  /** A string in which nothing needs an escape is quoted as it is. */
  lemma {:induction false} PlainQuoted(s: string)
    requires Plain(s)
    ensures Quoted(s) == "\"" + s + "\""
  {
    if s != "" {
      PlainQuoted(s[1..]);
      assert EscapeChar(s[0]) == [s[0]];
      assert Quoted(s[1..]) == "\"" + s[1..] + "\"" && Quoted(s[1..])[1..|s|] == s[1..];
      assert Escaped(s[1..]) == Quoted(s[1..])[1..|Quoted(s[1..])| - 1];
      assert [s[0]] + s[1..] == s;
    }
  }

  lemma TimeIsQuoted(t: int)
    requires TimeOk(t)
    ensures TimeJson(t) == Quoted(TimeBody(t))
  {
    hide TimeBody, Plain, Quoted;
    TimeBodyPlain(t);
    PlainQuoted(TimeBody(t));
  }

  /** Only ASCII characters stand in the text of an instant. */
  lemma TimeIsAscii(t: int)
    requires TimeOk(t)
    ensures forall i :: 0 <= i < |TimeJson(t)| ==> TimeJson(t)[i] as int < 0x80
  {
    hide TimeBody;
    TimeBodyPlain(t);
  }

  lemma TimeUnique(a: int, x: string, b: int, y: string)
    requires TimeOk(a) && TimeOk(b)
    ensures TimeJson(a) + x == TimeJson(b) + y ==> a == b && x == y
  {
    if TimeJson(a) + x == TimeJson(b) + y {
      hide TimeJson, TimeBody;
      TimeIsQuoted(a);
      TimeIsQuoted(b);
      QuotedUnique(TimeBody(a), x, TimeBody(b), y);
      TimeReadsBack(a);
      TimeReadsBack(b);
    }
  }

  predicate EndsNumber(s: string) {
    s != "" && !Digit(s[0])
  }

  lemma NoDigitAt(a: string, x: string, k: nat)
    requires AllDigits(a) && k < |a + x| && !Digit((a + x)[k])
    ensures k >= |a|
  {
  }

  /** A number ends where its digits end. */
  lemma DigitsUnique(a: string, x: string, b: string, y: string)
    requires AllDigits(a) && AllDigits(b) && EndsNumber(x) && EndsNumber(y) && a + x == b + y
    ensures a == b && x == y
  {
    assert (a + x)[|a|] == x[0] && (b + y)[|b|] == y[0];
    NoDigitAt(b, y, |a|);
    NoDigitAt(a, x, |b|);
    assert a == (a + x)[..|a|] && x == (a + x)[|a|..];
  }

  lemma IntUnique(a: int, x: string, b: int, y: string)
    requires EndsNumber(x) && EndsNumber(y) && IntText(a) + x == IntText(b) + y
    ensures a == b && x == y
  {
    IntReadsBack(a);
    IntReadsBack(b);
    SignShows(a, x);
    SignShows(b, y);
    hide IntValue, NatText, AllDigits, EndsNumber;
    if a < 0 {
      assert IntText(a) + x == "-" + (NatText(-a) + x) && IntText(b) + y == "-" + (NatText(-b) + y);
      SameTail("-", NatText(-a) + x, NatText(-b) + y);
      DigitsUnique(NatText(-a), x, NatText(-b), y);
    } else {
      DigitsUnique(NatText(a), x, NatText(b), y);
    }
  }

  lemma SignShows(n: int, rest: string)
    ensures (IntText(n) + rest)[0] == '-' <==> n < 0
  {
  }

  lemma SameTail(p: string, a: string, b: string)
    requires p + a == p + b
    ensures a == b
  {
    assert a == (p + a)[|p|..] && b == (p + b)[|p|..];
  }

  function BoolText(b: bool): (s: string)
    ensures |s| == BoolLen(b)
  {
    if b then "true" else "false"
  }

  lemma BoolUnique(a: bool, x: string, b: bool, y: string)
    requires BoolText(a) + x == BoolText(b) + y
    ensures a == b && x == y
  {
    assert (BoolText(a) + x)[0] == BoolText(a)[0] && (BoolText(b) + y)[0] == BoolText(b)[0];
    assert x == (BoolText(a) + x)[|BoolText(a)|..] && y == (BoolText(b) + y)[|BoolText(b)|..];
  }

  // ---- objects and arrays ----

  /** A key, its value, and the rest of the text. */
  function Member(key: string, value: string, rest: string): string {
    "\"" + key + "\":" + (value + rest)
  }

  lemma MemberBytes(key: string, value: string, rest: string)
    requires forall i :: 0 <= i < |key| ==> key[i] as int < 0x80
    ensures RawLen(Member(key, value, rest)) == |key| + 3 + RawLen(value) + RawLen(rest)
  {
    AsciiLen("\"" + key + "\":");
    RawLenConcat("\"" + key + "\":", value + rest);
    RawLenConcat(value, rest);
  }

  lemma MemberUnique(key: string, v: string, x: string, w: string, y: string)
    requires Member(key, v, x) == Member(key, w, y)
    ensures v + x == w + y
  {
    SameTail("\"" + key + "\":", v + x, w + y);
  }

  lemma CommaBytes(s: string)
    ensures RawLen("," + s) == 1 + RawLen(s)
  {
    AsciiLen(",");
    RawLenConcat(",", s);
  }

  /** Whether the rest goes on with a member of this key. */
  predicate GoesOn(rest: string, key: string) {
    |rest| >= |key| + 3 && rest[..|key| + 3] == ",\"" + key + "\""
  }

  /** An omitempty member. */
  function Optional(key: string, value: Option<string>, rest: string): string {
    if value.None? then rest else "," + Member(key, value.value, rest)
  }

  lemma OptionalBytes(key: string, value: Option<string>, rest: string)
    requires forall i :: 0 <= i < |key| ==> key[i] as int < 0x80
    ensures RawLen(Optional(key, value, rest)) ==
            RawLen(rest) + if value.None? then 0 else |key| + 4 + RawLen(value.value)
  {
    if value.Some? {
      MemberBytes(key, value.value, rest);
      CommaBytes(Member(key, value.value, rest));
    }
  }

  lemma OptionalUnique(key: string, v: Option<string>, x: string, w: Option<string>, y: string)
    requires Optional(key, v, x) == Optional(key, w, y) && !GoesOn(x, key) && !GoesOn(y, key)
    ensures v.Some? == w.Some?
    ensures v.None? ==> x == y
    ensures v.Some? ==> v.value + x == w.value + y
  {
    if v.Some? { PresentGoesOn(key, v.value, x); }
    if w.Some? { PresentGoesOn(key, w.value, y); }
    if v.Some? && w.Some? {
      SameTail(",", Member(key, v.value, x), Member(key, w.value, y));
      MemberUnique(key, v.value, x, w.value, y);
    }
  }

  lemma PresentGoesOn(key: string, value: string, rest: string)
    ensures GoesOn("," + Member(key, value, rest), key)
  {
    var s := "," + Member(key, value, rest);
    assert s == ",\"" + key + "\"" + (":" + (value + rest));
  }

  /** The elements from the first on, the closing bracket, and the rest. */
  function Elements<T>(l: seq<T>, text: T -> string, rest: string): string
    requires l != []
  {
    text(l[0]) + if |l| == 1 then "]" + rest else "," + Elements(l[1..], text, rest)
  }

  /** Each element with one separator. */
  function ElementBytes<T>(l: seq<T>, text: T -> string): nat {
    if l == [] then 0 else ElementBytes(l[..|l| - 1], text) + 1 + RawLen(text(l[|l| - 1]))
  }

  lemma {:induction false} ElementBytesFirst<T>(l: seq<T>, text: T -> string)
    requires l != []
    ensures ElementBytes(l, text) == 1 + RawLen(text(l[0])) + ElementBytes(l[1..], text)
  {
    if |l| > 1 {
      assert l[..|l| - 1][1..] == l[1..][..|l| - 2];
      ElementBytesFirst(l[..|l| - 1], text);
    }
  }

  lemma {:induction false} ElementsBytes<T>(l: seq<T>, text: T -> string, rest: string)
    requires l != []
    ensures RawLen(Elements(l, text, rest)) == ElementBytes(l, text) + RawLen(rest)
    decreases |l|
  {
    ElementBytesFirst(l, text);
    if |l| == 1 {
      AsciiLen("]");
      RawLenConcat("]", rest);
      RawLenConcat(text(l[0]), "]" + rest);
    } else {
      ElementsBytes(l[1..], text, rest);
      CommaBytes(Elements(l[1..], text, rest));
      RawLenConcat(text(l[0]), "," + Elements(l[1..], text, rest));
    }
  }

  /** Texts that determine their value and where they end. */
  ghost predicate Readable<T(!new)>(text: T -> string, ok: T -> bool) {
    forall a, x, b, y :: ok(a) && ok(b) && text(a) + x == text(b) + y ==> a == b && x == y
  }

  lemma {:induction false} ElementsUnique<T(!new)>(l: seq<T>, x: string, m: seq<T>, y: string,
                                                   text: T -> string, ok: T -> bool)
    requires Readable(text, ok) && l != [] && m != [] && Elements(l, text, x) == Elements(m, text, y)
    requires (forall e :: e in l ==> ok(e)) && forall e :: e in m ==> ok(e)
    ensures l == m && x == y
    decreases |l|
  {
    var a := if |l| == 1 then "]" + x else "," + Elements(l[1..], text, x);
    var b := if |m| == 1 then "]" + y else "," + Elements(m[1..], text, y);
    assert text(l[0]) + a == text(m[0]) + b;
    assert l[0] == m[0] && a == b;
    assert a[0] == b[0];
    if |l| == 1 {
      SameTail("]", x, y);
    } else {
      SameTail(",", Elements(l[1..], text, x), Elements(m[1..], text, y));
      ElementsUnique(l[1..], x, m[1..], y, text, ok);
      assert l == [l[0]] + l[1..] && m == [m[0]] + m[1..];
    }
  }

  // ---- the group index value ----

  /** json.Marshal of the id list. */
  function IndexJson(ids: seq<string>): string {
    if ids == [] then "[]" else "[" + Elements(ids, Quoted, "")
  }

  lemma UuidQuotedLen(id: string)
    requires IsUuid(id)
    ensures QuotedLen(id) == 38
  {
    assert forall i :: 0 <= i < 36 ==> (Dash(i) ==> id[i] == '-') && (!Dash(i) ==> Hex(id[i]));
    PlainEscapedLen(id);
  }

  lemma {:induction false} PlainEscapedLen(s: string)
    requires forall i :: 0 <= i < |s| ==> s[i] == '-' || Hex(s[i])
    ensures EscapedLen(s) == |s|
  {
    if s != "" { PlainEscapedLen(s[1..]); }
  }

  lemma {:induction false} UuidElements(ids: seq<string>)
    requires forall i :: 0 <= i < |ids| ==> IsUuid(ids[i])
    ensures ElementBytes(ids, Quoted) == 39 * |ids|
  {
    hide IsUuid, Quoted, QuotedLen;
    if ids != [] {
      UuidElements(ids[..|ids| - 1]);
      QuotedBytes(ids[|ids| - 1]);
      UuidQuotedLen(ids[|ids| - 1]);
    }
  }

  /** A stored index of n ids takes exactly 39n + 1 bytes. */
  lemma IndexJsonLen(ids: seq<string>)
    requires |ids| >= 1
    requires forall i :: 0 <= i < |ids| ==> IsUuid(ids[i])
    ensures RawLen(IndexJson(ids)) == 39 * |ids| + 1
  {
    hide IsUuid, Quoted, Elements, ElementBytes;
    UuidElements(ids);
    ElementsBytes(ids, Quoted, "");
    AsciiLen("[");
    RawLenConcat("[", Elements(ids, Quoted, ""));
  }

  /** The stored text determines the index. */
  lemma IndexJsonUnique(a: seq<string>, b: seq<string>)
    requires a != [] && b != [] && IndexJson(a) == IndexJson(b)
    ensures a == b
  {
    hide Quoted, Elements;
    forall v, x, w, y | Quoted(v) + x == Quoted(w) + y ensures v == w && x == y { QuotedUnique(v, x, w, y); }
    assert Readable(Quoted, (s: string) => true);
    SameTail("[", Elements(a, Quoted, ""), Elements(b, Quoted, ""));
    ElementsUnique(a, "", b, "", Quoted, (s: string) => true);
  }
}
