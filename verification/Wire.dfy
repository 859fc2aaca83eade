/** Encoded widths and key formats: how many bytes Go's encoding/json writes for
    the values this service stores, and which strings may name a key. */
module Wire {

  datatype Option<+T> = None | Some(value: T)

  // ---- int64 counters ----

  const INT64_MAX := 0x7fff_ffff_ffff_ffff
  const INT64_MIN := -0x8000_0000_0000_0000
  type int64 = x: int | INT64_MIN <= x <= INT64_MAX

  /** Go's `++` on a 64-bit int. */
  function Inc(x: int64): int64 {
    if x == INT64_MAX then INT64_MIN else x + 1
  }

  function Pow10(k: nat): nat {
    if k == 0 then 1 else 10 * Pow10(k - 1)
  }

  function NatDigits(n: nat): (d: nat)
    ensures 1 <= d
  {
    if n < 10 then 1 else 1 + NatDigits(n / 10)
  }

  lemma {:induction false} NatDigitsBound(n: nat, k: nat)
    requires 1 <= k && n < Pow10(k)
    ensures NatDigits(n) <= k
  {
    if n >= 10 {
      assert k != 1 by { assert Pow10(1) == 10 * Pow10(0); }
      NatDigitsBound(n / 10, k - 1);
    }
  }

  /** Bytes of a decimal integer, with its sign. */
  function IntLen(n: int): nat {
    if n < 0 then 1 + NatDigits(-n) else NatDigits(n)
  }

  /** No int64 takes more than 20 bytes in JSON. */
  lemma IntLenBound(n: int64)
    ensures 1 <= IntLen(n) <= 20
  {
    assert Pow10(19) == 10_000_000_000_000_000_000 by {
      assert Pow10(4) == 10_000;
      assert Pow10(8) == 10_000 * Pow10(4);
      assert Pow10(12) == 10_000 * Pow10(8);
      assert Pow10(16) == 10_000 * Pow10(12);
      assert Pow10(19) == 1_000 * Pow10(16);
    }
    var magnitude: int := n;
    NatDigitsBound(if magnitude < 0 then -magnitude else magnitude, 19);
  }

  // ---- instants ----
  // An instant is the number of nanoseconds since 0000-01-01T00:00:00Z.

  const NANOS := 1_000_000_000
  const DAY := 86_400 * NANOS
  /** Start of year 10000: ten thousand Gregorian years are 3,652,425 days. */
  const JSON_TIME_END := 3_652_425 * DAY
  /** Go's zero time, 0001-01-01T00:00:00Z; year 0 is a leap year. */
  const ZERO_TIME := 366 * DAY

  /** time.Time.MarshalJSON accepts exactly the years 0 to 9999. */
  predicate TimeOk(t: int) {
    0 <= t < JSON_TIME_END
  }

  /** Digits of a nine-digit fraction once its trailing zeros are dropped. */
  function FractionDigits(n: nat, width: nat): (d: nat)
    ensures d <= width
  {
    if n == 0 || width == 0 then 0
    else if n % 10 == 0 then FractionDigits(n / 10, width - 1)
    else width
  }

  /** Bytes of a quoted UTC instant in RFC 3339 form with optional fraction. */
  function TimeLen(t: int): (n: nat)
    ensures 22 <= n <= 32
  {
    var frac := t % NANOS;
    22 + if frac == 0 then 0 else 1 + FractionDigits(frac, 9)
  }

  /** What an SES event carries as its timestamp: nothing usable, or an instant. */
  datatype Stamp = Unusable | Stamp(instant: int)

  /** The instant an event is recorded with; `now` replaces a missing, malformed
      or zero timestamp and one whose year JSON cannot hold. */
  function ParseTimestamp(s: Stamp, now: int): (t: int)
    requires TimeOk(now)
    ensures TimeOk(t)
    ensures s.Stamp? && s.instant != ZERO_TIME && 0 <= s.instant < JSON_TIME_END ==> t == s.instant
    ensures s.Unusable? || s.instant == ZERO_TIME || s.instant < 0 || s.instant >= JSON_TIME_END ==> t == now
  {
    match s
    case Unusable => now
    case Stamp(t) => if t == ZERO_TIME || !TimeOk(t) then now else t
  }

  // ---- strings ----

  function Utf8Width(c: char): nat {
    var n := c as int;
    if n < 0x80 then 1 else if n < 0x800 then 2 else if n < 0x1_0000 then 3 else 4
  }

  /** Bytes json.Marshal writes for one character (HTML escaping on). */
  function EscapedWidth(c: char): (w: nat)
    ensures 1 <= w <= 6 * Utf8Width(c)
  {
    var n := c as int;
    if c == '"' || c == '\\' || n == 8 || n == 9 || n == 10 || n == 12 || n == 13 then 2
    else if n < 0x20 || c == '<' || c == '>' || c == '&' || n == 0x2028 || n == 0x2029 then 6
    else Utf8Width(c)
  }

  function RawLen(s: string): nat {
    if s == [] then 0 else Utf8Width(s[0]) + RawLen(s[1..])
  }

  lemma {:induction false} AsciiLen(s: string)
    requires forall i :: 0 <= i < |s| ==> s[i] as int < 0x80
    ensures RawLen(s) == |s|
  {
    if s != [] { AsciiLen(s[1..]); }
  }

  function EscapedLen(s: string): (n: nat)
    ensures n <= 6 * RawLen(s)
  {
    if s == [] then 0 else EscapedWidth(s[0]) + EscapedLen(s[1..])
  }

  /** Bytes of s as a JSON string. */
  function QuotedLen(s: string): (n: nat)
    ensures 2 <= n <= 2 + 6 * RawLen(s)
  {
    2 + EscapedLen(s)
  }

  // ---- keys and identifiers ----

  predicate Digit(c: char) { '0' <= c <= '9' }
  predicate LowerHex(c: char) { Digit(c) || 'a' <= c <= 'f' }
  predicate Hex(c: char) { LowerHex(c) || 'A' <= c <= 'F' }

  predicate KeyChar(c: char) {
    Digit(c) || 'a' <= c <= 'z' || 'A' <= c <= 'Z' || c == '-' || c == '/' || c == '_' || c == '=' || c == '.'
  }

  const MAX_KEY_LEN := 256

  /** checkKey: the keys the store is willing to hand to a bucket. */
  predicate ValidKey(k: string) {
    && 1 <= |k| <= MAX_KEY_LEN
    && (forall i :: 0 <= i < |k| ==> KeyChar(k[i]))
    && k[0] != '.' && k[|k| - 1] != '.'
    && (forall i :: 0 < i < |k| ==> !(k[i - 1] == '.' && k[i] == '.'))
  }

  predicate Dash(i: int) { i == 8 || i == 13 || i == 18 || i == 23 }

  predicate IsUuid(s: string) {
    |s| == 36 && forall i :: 0 <= i < 36 ==> if Dash(i) then s[i] == '-' else Hex(s[i])
  }

  predicate IsGroupHandle(s: string) {
    |s| == 36 && s[0] == 'g' && s[1] == 'r' && s[2] == 'p' && s[3] == '_' &&
    forall i :: 4 <= i < 36 ==> LowerHex(s[i])
  }

  /** Every email id and every issued handle is a key the bucket accepts. */
  lemma IdentifiersAreKeys(s: string)
    requires IsUuid(s) || IsGroupHandle(s)
    ensures ValidKey(s)
  {
    forall i | 0 <= i < |s| ensures KeyChar(s[i]) && s[i] != '.' {
      if IsUuid(s) { assert Dash(i) || Hex(s[i]); } else { assert i < 4 || LowerHex(s[i]); }
    }
  }

  function LowerChar(c: char): char {
    if 'A' <= c <= 'Z' then ((c as int) + 32) as char else c
  }

  /** strings.ToLower on the ASCII identifiers it is applied to. */
  function ToLower(s: string): string {
    seq(|s|, i requires 0 <= i < |s| => LowerChar(s[i]))
  }

  /** The lower-case form of a UUID is a UUID in which nothing is left to lower. */
  lemma LowerUuid(s: string)
    requires IsUuid(s)
    ensures IsUuid(ToLower(s)) && ToLower(ToLower(s)) == ToLower(s)
    ensures forall i :: 0 <= i < 36 ==> !('A' <= ToLower(s)[i] <= 'Z')
    ensures forall i :: 0 <= i < 36 ==> ToLower(s)[i] == s[i] || ToLower(s)[i] as int == s[i] as int + 32
  {
    var l := ToLower(s);
    forall i | 0 <= i < 36 ensures if Dash(i) then l[i] == '-' else Hex(l[i]) {
      assert if Dash(i) then s[i] == '-' else Hex(s[i]);
    }
    assert ToLower(l) == l;
  }

  predicate AllHex(s: string) {
    forall i :: 0 <= i < |s| ==> '0' <= s[i] <= '9' || 'a' <= s[i] <= 'f' || 'A' <= s[i] <= 'F'
  }

  /** A UUID is five groups of 8, 4, 4, 4 and 12 hexadecimal digits with dashes between them. */
  lemma UuidShape(s: string)
    ensures IsUuid(s) <==>
            && |s| == 36 && s[8] == s[13] == s[18] == s[23] == '-'
            && AllHex(s[..8]) && AllHex(s[9..13]) && AllHex(s[14..18]) && AllHex(s[19..23]) && AllHex(s[24..])
  {
    if IsUuid(s) {
      forall i | 0 <= i < 36 ensures if Dash(i) then s[i] == '-' else Hex(s[i]) {}
      assert Dash(8) && Dash(13) && Dash(18) && Dash(23);
    }
    if |s| == 36 && AllHex(s[..8]) && AllHex(s[9..13]) && AllHex(s[14..18]) && AllHex(s[19..23]) && AllHex(s[24..]) {
      assert forall i :: 0 <= i < 8 ==> s[..8][i] == s[i];
      assert forall i :: 9 <= i < 13 ==> s[9..13][i - 9] == s[i];
      assert forall i :: 14 <= i < 18 ==> s[14..18][i - 14] == s[i];
      assert forall i :: 19 <= i < 23 ==> s[19..23][i - 19] == s[i];
      assert forall i :: 24 <= i < 36 ==> s[24..][i - 24] == s[i];
    }
  }

  /** From position i on the key is words of key characters with single dots between them. */
  predicate Dotted(k: string, i: nat)
    decreases |k| - i
  {
    && i < |k| && k[i] != '.' && KeyChar(k[i])
    && (i + 1 == |k| || (if k[i + 1] == '.' then Dotted(k, i + 2) else Dotted(k, i + 1)))
  }

  /** A valid key is at most 256 characters of dot-separated words. */
  lemma KeyShape(k: string)
    ensures ValidKey(k) <==> |k| <= 256 && Dotted(k, 0)
  {
    if k != "" { DottedFrom(k, 0); }
  }

  lemma {:induction false} DottedFrom(k: string, i: nat)
    requires i < |k|
    ensures Dotted(k, i) <==>
            && (forall j :: i <= j < |k| ==> KeyChar(k[j])) && k[i] != '.' && k[|k| - 1] != '.'
            && (forall j :: i < j < |k| ==> !(k[j - 1] == '.' && k[j] == '.'))
    decreases |k| - i
  {
    if i + 2 < |k| && k[i + 1] == '.' {
      DottedFrom(k, i + 2);
    } else if i + 1 < |k| && k[i + 1] != '.' {
      DottedFrom(k, i + 1);
    }
  }
}
