/** Redacting addresses in an error text: one left-to-right pass over the message
    against its specification "leftmost, longest in runes, non-overlapping". A
    message is the sequence of its decoded runes, each with the bytes it came from. */
module Redact {
  import opened Wire

  type Bytes = seq<bv8>
  /** One decoded rune; invalid bytes decode to the replacement rune. */
  datatype Glyph = Glyph(rune: int, raw: Bytes)
  type Text = t: seq<Glyph> | forall i :: 0 <= i < |t| ==> |t[i].raw| >= 1 witness []
  /** An address as the runes it is matched by and the redacted form that replaces it. */
  datatype Address = Address(runes: seq<int>, redacted: Bytes)

  // ---- simple case folding ----

  /** unicode.SimpleFold: the next rune of the orbit; every orbit is a finite cycle. */
  datatype Folding = Folding(next: int -> int, period: int -> nat)

  function Orbit(f: Folding, a: int, k: nat): int {
    if k == 0 then a else f.next(Orbit(f, a, k - 1))
  }

  ghost predicate Cyclic(f: Folding) {
    forall a :: f.period(a) >= 1 && Orbit(f, a, f.period(a)) == a
  }

  /** Equal under simple case folding: b lies on the orbit of a. */
  ghost predicate SameFold(f: Folding, a: int, b: int) {
    exists k: nat :: Orbit(f, a, k) == b
  }

  lemma {:induction false} OrbitAdd(f: Folding, a: int, m: nat, n: nat)
    ensures Orbit(f, a, m + n) == Orbit(f, Orbit(f, a, m), n)
  {
    if n > 0 { OrbitAdd(f, a, m, n - 1); }
  }

  lemma {:induction false} OrbitWraps(f: Folding, a: int, p: nat, n: nat) returns (m: nat)
    requires p >= 1 && Orbit(f, a, p) == a
    ensures m < p && Orbit(f, a, m) == Orbit(f, a, n)
    decreases n
  {
    if n < p {
      m := n;
    } else {
      OrbitAdd(f, a, p, n - p);
      m := OrbitWraps(f, a, p, n - p);
    }
  }

  lemma FoldReflexive(f: Folding, a: int)
    ensures SameFold(f, a, a)
  {
    assert Orbit(f, a, 0) == a;
  }

  lemma FoldSymmetric(f: Folding, a: int, b: int)
    requires Cyclic(f) && SameFold(f, a, b)
    ensures SameFold(f, b, a)
  {
    var k: nat :| Orbit(f, a, k) == b;
    var m := OrbitWraps(f, a, f.period(a), k);
    OrbitAdd(f, a, m, f.period(a) - m);
    assert Orbit(f, b, f.period(a) - m) == a;
  }

  lemma FoldTransitive(f: Folding, a: int, b: int, c: int)
    requires SameFold(f, a, b) && SameFold(f, b, c)
    ensures SameFold(f, a, c)
  {
    var k: nat :| Orbit(f, a, k) == b;
    var m: nat :| Orbit(f, b, m) == c;
    OrbitAdd(f, a, k, m);
    assert Orbit(f, a, k + m) == c;
  }

  /** equalFoldRune walks the orbit of a once and misses no member of it. */
  method EqualFoldRune(f: Folding, a: int, b: int) returns (same: bool)
    requires Cyclic(f)
    ensures same == SameFold(f, a, b)
  {
    if a == b {
      FoldReflexive(f, a);
      return true;
    }
    var r := f.next(a);
    ghost var k: nat := 1;
    assert Orbit(f, a, 1) == f.next(Orbit(f, a, 0));
    while r != a
      invariant 1 <= k <= f.period(a) && r == Orbit(f, a, k)
      invariant forall j: nat :: j < k ==> Orbit(f, a, j) != b
      decreases f.period(a) - k
    {
      if r == b { return true; }
      r := f.next(r);
      k := k + 1;
    }
    if SameFold(f, a, b) {
      var n: nat :| Orbit(f, a, n) == b;
      var m := OrbitWraps(f, a, k, n);
      assert false;
    }
    return false;
  }

  // ---- matching ----

  /** The non-empty address spells the message from position i on, up to case. */
  ghost predicate Matches(f: Folding, msg: Text, i: nat, a: Address) {
    && 1 <= |a.runes| && i + |a.runes| <= |msg|
    && forall k :: 0 <= k < |a.runes| ==> SameFold(f, msg[i + k].rune, a.runes[k])
  }

  ghost predicate FoldEqual(f: Folding, a: Address, b: Address) {
    |a.runes| == |b.runes| && forall k :: 0 <= k < |a.runes| ==> SameFold(f, a.runes[k], b.runes[k])
  }

  /** Fold-equal addresses match at the same places. */
  lemma FoldEqualMatches(f: Folding, msg: Text, i: nat, a: Address, b: Address)
    requires Cyclic(f) && FoldEqual(f, a, b) && Matches(f, msg, i, b)
    ensures Matches(f, msg, i, a)
  {
    forall k | 0 <= k < |a.runes| ensures SameFold(f, msg[i + k].rune, a.runes[k]) {
      FoldSymmetric(f, a.runes[k], b.runes[k]);
      FoldTransitive(f, msg[i + k].rune, b.runes[k], a.runes[k]);
    }
  }

  // ---- specification ----

  datatype Span = Span(start: nat, addr: nat)

  /** addrs[n] is the longest address matching at i, the earliest of that length. */
  ghost predicate BestAt(f: Folding, msg: Text, addrs: seq<Address>, i: nat, n: nat) {
    && n < |addrs| && Matches(f, msg, i, addrs[n])
    && forall m :: 0 <= m < |addrs| && Matches(f, msg, i, addrs[m]) ==>
         |addrs[m].runes| < |addrs[n].runes| || (|addrs[m].runes| == |addrs[n].runes| && n <= m)
  }

  ghost predicate NoneAt(f: Folding, msg: Text, addrs: seq<Address>, i: nat) {
    forall m :: 0 <= m < |addrs| ==> !Matches(f, msg, i, addrs[m])
  }

  /** From p on, the spans are the leftmost longest non-overlapping matches: no match
      starts at a position between them, each takes the best address where it starts. */
  ghost predicate Redaction(f: Folding, msg: Text, addrs: seq<Address>, p: nat, spans: seq<Span>)
    decreases |spans|
  {
    if spans == [] then forall i :: p <= i < |msg| ==> NoneAt(f, msg, addrs, i)
    else
      var s := spans[0];
      && p <= s.start && BestAt(f, msg, addrs, s.start, s.addr)
      && (forall i :: p <= i < s.start ==> NoneAt(f, msg, addrs, i))
      && Redaction(f, msg, addrs, s.start + |addrs[s.addr].runes|, spans[1..])
  }

  /** The specification determines the spans. */
  lemma {:induction false} RedactionUnique(f: Folding, msg: Text, addrs: seq<Address>, p: nat,
                                         a: seq<Span>, b: seq<Span>)
    requires Redaction(f, msg, addrs, p, a) && Redaction(f, msg, addrs, p, b)
    ensures a == b
    decreases |a|
  {
    if a != [] && b != [] {
      assert a[0].start == b[0].start by {
        BestIsMatch(f, msg, addrs, a[0]);
        BestIsMatch(f, msg, addrs, b[0]);
      }
      assert a[0].addr == b[0].addr by { BestUnique(f, msg, addrs, a[0].start, a[0].addr, b[0].addr); }
      RedactionUnique(f, msg, addrs, a[0].start + |addrs[a[0].addr].runes|, a[1..], b[1..]);
      assert a == [a[0]] + a[1..] && b == [b[0]] + b[1..];
    } else {
      if a != [] { BestIsMatch(f, msg, addrs, a[0]); }
      if b != [] { BestIsMatch(f, msg, addrs, b[0]); }
    }
  }

  lemma BestIsMatch(f: Folding, msg: Text, addrs: seq<Address>, s: Span)
    requires BestAt(f, msg, addrs, s.start, s.addr)
    ensures s.start < |msg| && !NoneAt(f, msg, addrs, s.start)
  {
  }

  lemma BestUnique(f: Folding, msg: Text, addrs: seq<Address>, i: nat, m: nat, n: nat)
    requires BestAt(f, msg, addrs, i, m) && BestAt(f, msg, addrs, i, n)
    ensures m == n
  {
  }

  /** What the spans of a redaction are: each is a match, the longest of those that start
      where it starts, and begins where the one before it has ended or later. */
  lemma {:induction false} SpansAreLongest(f: Folding, msg: Text, addrs: seq<Address>, p: nat, spans: seq<Span>, x: nat)
    requires Redaction(f, msg, addrs, p, spans) && x < |spans|
    ensures var s := spans[x];
            && s.addr < |addrs| && Matches(f, msg, s.start, addrs[s.addr])
            && (forall m :: 0 <= m < |addrs| && Matches(f, msg, s.start, addrs[m]) ==>
                  |addrs[m].runes| <= |addrs[s.addr].runes|)
            && s.start >= p
            && (x > 0 ==> spans[x - 1].addr < |addrs| &&
                          s.start >= spans[x - 1].start + |addrs[spans[x - 1].addr].runes|)
    decreases |spans|
  {
    var next := spans[0].start + |addrs[spans[0].addr].runes|;
    if x > 0 {
      SpansAreLongest(f, msg, addrs, next, spans[1..], x - 1);
      assert spans[1..][x - 1] == spans[x];
      if x > 1 { assert spans[1..][x - 2] == spans[x - 1]; }
    }
  }

  ghost predicate Covers(addrs: seq<Address>, s: Span, i: nat) {
    s.addr < |addrs| && s.start <= i < s.start + |addrs[s.addr].runes|
  }

  /** Wherever an address occurs, the start of that occurrence is replaced. */
  lemma {:induction false} EveryMatchIsCovered(f: Folding, msg: Text, addrs: seq<Address>, p: nat, spans: seq<Span>,
                                               i: nat, m: nat)
    requires Redaction(f, msg, addrs, p, spans) && p <= i && m < |addrs| && Matches(f, msg, i, addrs[m])
    ensures exists x :: 0 <= x < |spans| && Covers(addrs, spans[x], i)
    decreases |spans|
  {
    assert !NoneAt(f, msg, addrs, i);
    var next := spans[0].start + |addrs[spans[0].addr].runes|;
    if i >= next {
      EveryMatchIsCovered(f, msg, addrs, next, spans[1..], i, m);
      var x :| 0 <= x < |spans[1..]| && Covers(addrs, spans[1..][x], i);
      assert Covers(addrs, spans[x + 1], i);
    } else {
      assert Covers(addrs, spans[0], i);
    }
  }

  /** The bytes of the glyphs from i to j. */
  function Raw(msg: Text, i: nat, j: nat): Bytes
    requires i <= j <= |msg|
  {
    if i == j then [] else Raw(msg, i, j - 1) + msg[j - 1].raw
  }

  /** Raw is the message's own bytes: one glyph gives its bytes, adjacent parts join. */
  lemma {:induction false} RawParts(msg: Text, i: nat, j: nat, k: nat)
    requires i <= j <= k <= |msg|
    ensures Raw(msg, i, j) + Raw(msg, j, k) == Raw(msg, i, k)
    ensures i < |msg| ==> Raw(msg, i, i + 1) == msg[i].raw
    decreases k
  {
    if j < k {
      RawParts(msg, i, j, k - 1);
      assert Raw(msg, i, j) + (Raw(msg, j, k - 1) + msg[k - 1].raw) == Raw(msg, i, k - 1) + msg[k - 1].raw;
    } else {
      assert Raw(msg, i, j) + [] == Raw(msg, i, j);
    }
    if i < |msg| {
      assert Raw(msg, i, i) == [];
      assert [] + msg[i].raw == msg[i].raw;
    }
  }

  ghost predicate InBounds(msg: Text, addrs: seq<Address>, p: nat, spans: seq<Span>)
    decreases |spans|
  {
    if spans == [] then p <= |msg|
    else
      var s := spans[0];
      p <= s.start && s.addr < |addrs| && s.start + |addrs[s.addr].runes| <= |msg| &&
      InBounds(msg, addrs, s.start + |addrs[s.addr].runes|, spans[1..])
  }

  /** The message from p on with each span replaced and everything else copied verbatim. */
  ghost function Render(msg: Text, addrs: seq<Address>, p: nat, spans: seq<Span>): Bytes
    requires InBounds(msg, addrs, p, spans)
    decreases |spans|
  {
    if spans == [] then Raw(msg, p, |msg|)
    else
      var s := spans[0];
      Raw(msg, p, s.start) + addrs[s.addr].redacted +
      Render(msg, addrs, s.start + |addrs[s.addr].runes|, spans[1..])
  }

  ghost predicate ReplacedByItself(msg: Text, addrs: seq<Address>, s: Span) {
    && s.addr < |addrs| && s.start + |addrs[s.addr].runes| <= |msg|
    && addrs[s.addr].redacted == Raw(msg, s.start, s.start + |addrs[s.addr].runes|)
  }

  /** Replacing every span by the very bytes it covers gives the message back: nothing
      outside the spans is lost, repeated or changed. */
  lemma {:induction false} RenderIsVerbatim(msg: Text, addrs: seq<Address>, p: nat, spans: seq<Span>)
    requires InBounds(msg, addrs, p, spans)
    requires forall x :: 0 <= x < |spans| ==> ReplacedByItself(msg, addrs, spans[x])
    ensures Render(msg, addrs, p, spans) == Raw(msg, p, |msg|)
    decreases |spans|
  {
    if spans != [] {
      hide Raw;
      var s := spans[0];
      var end := s.start + |addrs[s.addr].runes|;
      assert ReplacedByItself(msg, addrs, spans[0]);
      RenderIsVerbatim(msg, addrs, end, spans[1..]);
      RawParts(msg, p, s.start, end);
      RawParts(msg, p, end, |msg|);
    }
  }

  lemma {:induction false} RedactionInBounds(f: Folding, msg: Text, addrs: seq<Address>, p: nat, spans: seq<Span>)
    requires Redaction(f, msg, addrs, p, spans) && p <= |msg|
    ensures InBounds(msg, addrs, p, spans)
    decreases |spans|
  {
    if spans != [] {
      RedactionInBounds(f, msg, addrs, spans[0].start + |addrs[spans[0].addr].runes|, spans[1..]);
    }
  }

  // ---- the candidate list ----

  function ByteLen(msg: Text): nat {
    if msg == [] then 0 else ByteLen(msg[1..]) + |msg[0].raw|
  }

  lemma {:induction false} BytesCoverRunes(msg: Text)
    ensures |msg| <= ByteLen(msg)
  {
    if msg != [] { BytesCoverRunes(msg[1..]); }
  }

  method EqualFold(f: Folding, a: Address, b: Address) returns (same: bool)
    requires Cyclic(f)
    ensures same == FoldEqual(f, a, b)
  {
    if |a.runes| != |b.runes| { return false; }
    for k := 0 to |a.runes|
      invariant forall j :: 0 <= j < k ==> SameFold(f, a.runes[j], b.runes[j])
    {
      var eq := EqualFoldRune(f, a.runes[k], b.runes[k]);
      if !eq { return false; }
    }
    return true;
  }

  /** Every address that could match has a kept one, no later in the list, that it is fold-equal to. */
  ghost predicate Represents(f: Folding, addrs: seq<Address>, uniq: seq<nat>, upTo: nat, maxRunes: nat)
    requires upTo <= |addrs|
  {
    && (forall x :: 0 <= x < |uniq| ==> uniq[x] < upTo && addrs[uniq[x]].runes != [])
    && (forall x, y :: 0 <= x < y < |uniq| ==> uniq[x] < uniq[y])
    && forall m :: 0 <= m < upTo && 1 <= |addrs[m].runes| <= maxRunes ==> Kept(f, addrs, uniq, m)
  }

  ghost predicate Kept(f: Folding, addrs: seq<Address>, uniq: seq<nat>, m: nat)
    requires m < |addrs|
  {
    exists x :: 0 <= x < |uniq| && uniq[x] <= m && FoldEqual(f, addrs[uniq[x]], addrs[m])
  }

  /** Skips empty and too long addresses and fold-equal duplicates. */
  method Candidates(f: Folding, msg: Text, addrs: seq<Address>) returns (uniq: seq<nat>)
    requires Cyclic(f)
    ensures Represents(f, addrs, uniq, |addrs|, ByteLen(msg))
  {
    uniq := [];
    var limit := ByteLen(msg);
    for n := 0 to |addrs|
      invariant Represents(f, addrs, uniq, n, limit)
    {
      if addrs[n].runes != [] && |addrs[n].runes| <= limit {
        var dup := false;
        for x := 0 to |uniq|
          invariant !dup
        {
          var same := EqualFold(f, addrs[uniq[x]], addrs[n]);
          if same {
            dup := true;
            break;
          }
        }
        ghost var before := uniq;
        if !dup { uniq := uniq + [n]; }
        KeepNext(f, addrs, before, uniq, n, limit);
      }
    }
  }

  lemma KeepNext(f: Folding, addrs: seq<Address>, before: seq<nat>, after: seq<nat>, n: nat, limit: nat)
    requires n < |addrs| && addrs[n].runes != [] && Represents(f, addrs, before, n, limit)
    requires after == before + [n] ||
             (after == before && exists x :: 0 <= x < |before| && FoldEqual(f, addrs[before[x]], addrs[n]))
    ensures Represents(f, addrs, after, n + 1, limit)
  {
    forall m | 0 <= m < n + 1 && 1 <= |addrs[m].runes| <= limit ensures Kept(f, addrs, after, m) {
      if m < n {
        assert Kept(f, addrs, before, m);
        var x :| 0 <= x < |before| && before[x] <= m && FoldEqual(f, addrs[before[x]], addrs[m]);
        assert after[x] == before[x];
      } else if after == before {
        var x :| 0 <= x < |before| && FoldEqual(f, addrs[before[x]], addrs[n]);
        assert after[x] <= n;
      } else {
        forall k | 0 <= k < |addrs[n].runes| ensures SameFold(f, addrs[n].runes[k], addrs[n].runes[k]) {
          FoldReflexive(f, addrs[n].runes[k]);
        }
        assert after[|before|] == n;
      }
    }
  }

  /** Longer first, and in list order among equals. */
  ghost predicate Before(addrs: seq<Address>, a: nat, b: nat)
    requires a < |addrs| && b < |addrs|
  {
    |addrs[a].runes| > |addrs[b].runes| || (|addrs[a].runes| == |addrs[b].runes| && a < b)
  }

  ghost predicate Sorted(addrs: seq<Address>, s: seq<nat>) {
    && (forall x :: 0 <= x < |s| ==> s[x] < |addrs|)
    && forall x, y :: 0 <= x < y < |s| ==> Before(addrs, s[x], s[y])
  }

  /** sort.SliceStable by descending rune count, on a list in ascending index order. */
  method SortByRunes(addrs: seq<Address>, uniq: seq<nat>) returns (s: seq<nat>)
    requires forall x :: 0 <= x < |uniq| ==> uniq[x] < |addrs|
    requires forall x, y :: 0 <= x < y < |uniq| ==> uniq[x] < uniq[y]
    ensures Sorted(addrs, s)
    ensures forall n :: n in s <==> n in uniq
  {
    s := [];
    for k := 0 to |uniq|
      invariant Sorted(addrs, s)
      invariant forall n :: n in s <==> n in uniq[..k]
    {
      var n := uniq[k];
      var p := |s|;
      while p > 0 && |addrs[s[p - 1]].runes| < |addrs[n].runes|
        invariant 0 <= p <= |s|
        invariant forall x :: p <= x < |s| ==> Before(addrs, n, s[x])
      {
        p := p - 1;
      }
      assert forall x :: 0 <= x < p ==> Before(addrs, s[x], n) by {
        forall x | 0 <= x < p ensures Before(addrs, s[x], n) {
          assert s[x] in uniq[..k];
          assert x < p - 1 ==> Before(addrs, s[x], s[p - 1]);
        }
      }
      InsertSorted(addrs, s, p, n);
      assert uniq[..k + 1] == uniq[..k] + [n];
      s := s[..p] + [n] + s[p..];
    }
    assert uniq[..|uniq|] == uniq;
  }

  lemma InsertSorted(addrs: seq<Address>, s: seq<nat>, p: nat, n: nat)
    requires Sorted(addrs, s) && p <= |s| && n < |addrs|
    requires forall x :: 0 <= x < p ==> Before(addrs, s[x], n)
    requires forall x :: p <= x < |s| ==> Before(addrs, n, s[x])
    ensures Sorted(addrs, s[..p] + [n] + s[p..])
    ensures forall m :: m in s[..p] + [n] + s[p..] <==> m in s || m == n
  {
    hide Before;
    var t := s[..p] + [n] + s[p..];
    InsertKeepsMembers(s, p, n);
    assert forall x :: 0 <= x < |t| ==> t[x] == if x < p then s[x] else if x == p then n else s[x - 1];
    forall x, y | 0 <= x < y < |t| ensures Before(addrs, t[x], t[y]) {
      assert x < p < y ==> t[x] == s[x] && t[y] == s[y - 1];
    }
  }

  lemma InsertKeepsMembers(s: seq<nat>, p: nat, n: nat)
    requires p <= |s|
    ensures forall m :: m in s[..p] + [n] + s[p..] <==> m in s || m == n
  {
    assert s == s[..p] + s[p..];
  }

  /** A matching address has a candidate of the same length, no later in the list, that matches too. */
  lemma MatchIsRepresented(f: Folding, msg: Text, addrs: seq<Address>, uniq: seq<nat>, i: nat, m: nat) returns (u: nat)
    requires Cyclic(f) && Represents(f, addrs, uniq, |addrs|, ByteLen(msg))
    requires m < |addrs| && Matches(f, msg, i, addrs[m])
    ensures u in uniq && u <= m && |addrs[u].runes| == |addrs[m].runes| && Matches(f, msg, i, addrs[u])
  {
    BytesCoverRunes(msg);
    assert Kept(f, addrs, uniq, m);
    var x :| 0 <= x < |uniq| && uniq[x] <= m && FoldEqual(f, addrs[uniq[x]], addrs[m]);
    u := uniq[x];
    FoldEqualMatches(f, msg, i, addrs[u], addrs[m]);
  }

  /** On the sorted candidates the first match is the best match among all addresses. */
  lemma FirstIsBest(f: Folding, msg: Text, addrs: seq<Address>, uniq: seq<nat>, s: seq<nat>, i: nat, j: nat)
    requires Cyclic(f) && Represents(f, addrs, uniq, |addrs|, ByteLen(msg)) && Sorted(addrs, s)
    requires forall n :: n in s <==> n in uniq
    requires j <= |s| && forall x :: 0 <= x < j ==> !Matches(f, msg, i, addrs[s[x]])
    requires j < |s| ==> Matches(f, msg, i, addrs[s[j]])
    ensures if j < |s| then BestAt(f, msg, addrs, i, s[j]) else NoneAt(f, msg, addrs, i)
  {
    hide Cyclic, Represents, Matches;
    forall m | 0 <= m < |addrs| && Matches(f, msg, i, addrs[m])
      ensures j < |s| && (|addrs[m].runes| < |addrs[s[j]].runes| ||
                         (|addrs[m].runes| == |addrs[s[j]].runes| && s[j] <= m))
    {
      var u := MatchIsRepresented(f, msg, addrs, uniq, i, m);
      var y :| 0 <= y < |s| && s[y] == u;
      assert y > j ==> Before(addrs, s[j], s[y]);
    }
  }

  /** foldPrefixLen and matchAddressAt: the first candidate that matches at i. */
  method MatchAddressAt(f: Folding, msg: Text, addrs: seq<Address>, s: seq<nat>, i: nat) returns (j: nat)
    requires Cyclic(f) && forall x :: 0 <= x < |s| ==> s[x] < |addrs| && addrs[s[x]].runes != []
    ensures j <= |s| && forall x :: 0 <= x < j ==> !Matches(f, msg, i, addrs[s[x]])
    ensures j < |s| ==> Matches(f, msg, i, addrs[s[j]])
  {
    for x := 0 to |s|
      invariant forall y :: 0 <= y < x ==> !Matches(f, msg, i, addrs[s[y]])
    {
      var n := FoldPrefixLen(f, msg, i, addrs[s[x]]);
      if n > 0 { return x; }
    }
    return |s|;
  }

  /** The runes of the message from i that spell the address, or 0. */
  method FoldPrefixLen(f: Folding, msg: Text, i: nat, a: Address) returns (n: nat)
    requires Cyclic(f) && a.runes != []
    ensures n == if Matches(f, msg, i, a) then |a.runes| else 0
  {
    var p := i;
    for k := 0 to |a.runes|
      invariant p == i + k && (k > 0 ==> p <= |msg|)
      invariant forall x :: 0 <= x < k ==> SameFold(f, msg[i + x].rune, a.runes[x])
    {
      if p >= |msg| { return 0; }
      var same := EqualFoldRune(f, msg[p].rune, a.runes[k]);
      if !same { return 0; }
      p := p + 1;
    }
    return |a.runes|;
  }

  // ---- the pass ----

  datatype Result = Unchanged | Redacted(text: Bytes)

  /** Spans found before i, continued by the spans from i, are the spans of the whole. */
  ghost predicate Continues(f: Folding, msg: Text, addrs: seq<Address>, done: seq<Span>, last: nat, built: Bytes)
  {
    last <= |msg| &&
    forall rest: seq<Span> :: Redaction(f, msg, addrs, last, rest) && InBounds(msg, addrs, last, rest) ==>
      Continuation(f, msg, addrs, done, last, built, rest)
  }

  ghost predicate Continuation(f: Folding, msg: Text, addrs: seq<Address>, done: seq<Span>,
                               last: nat, built: Bytes, rest: seq<Span>)
    requires InBounds(msg, addrs, last, rest)
  {
    && Redaction(f, msg, addrs, 0, done + rest) && InBounds(msg, addrs, 0, done + rest)
    && Render(msg, addrs, 0, done + rest) == built + Render(msg, addrs, last, rest)
  }

  lemma ContinueWith(f: Folding, msg: Text, addrs: seq<Address>, done: seq<Span>, last: nat,
                     built: Bytes, i: nat, n: nat)
    requires Continues(f, msg, addrs, done, last, built) && last <= i && BestAt(f, msg, addrs, i, n)
    requires forall x :: last <= x < i ==> NoneAt(f, msg, addrs, x)
    ensures i + |addrs[n].runes| <= |msg|
    ensures Continues(f, msg, addrs, done + [Span(i, n)],
                      i + |addrs[n].runes|, built + Raw(msg, last, i) + addrs[n].redacted)
  {
    var next, more := i + |addrs[n].runes|, built + Raw(msg, last, i) + addrs[n].redacted;
    assert next <= |msg|;
    hide BestAt, NoneAt, Raw, Continuation;
    forall rest: seq<Span> | Redaction(f, msg, addrs, next, rest) && InBounds(msg, addrs, next, rest)
      ensures Continuation(f, msg, addrs, done + [Span(i, n)], next, more, rest)
    {
      OneMoreSpan(f, msg, addrs, last, i, n, rest);
      assert Continuation(f, msg, addrs, done, last, built, [Span(i, n)] + rest);
      ContinuationStep(f, msg, addrs, done, last, built, i, n, rest);
    }
  }

  /** A span in front of what follows it. */
  lemma OneMoreSpan(f: Folding, msg: Text, addrs: seq<Address>, last: nat, i: nat, n: nat, rest: seq<Span>)
    requires BestAt(f, msg, addrs, i, n) && last <= i && forall x :: last <= x < i ==> NoneAt(f, msg, addrs, x)
    requires Redaction(f, msg, addrs, i + |addrs[n].runes|, rest) && InBounds(msg, addrs, i + |addrs[n].runes|, rest)
    ensures i <= |msg|
    ensures Redaction(f, msg, addrs, last, [Span(i, n)] + rest) && InBounds(msg, addrs, last, [Span(i, n)] + rest)
    ensures Render(msg, addrs, last, [Span(i, n)] + rest) ==
            Raw(msg, last, i) + addrs[n].redacted + Render(msg, addrs, i + |addrs[n].runes|, rest)
  {
    hide NoneAt, Raw;
    var tail := [Span(i, n)] + rest;
    assert tail[0] == Span(i, n) && tail[1..] == rest;
  }

  lemma ContinuationStep(f: Folding, msg: Text, addrs: seq<Address>, done: seq<Span>,
                         last: nat, built: Bytes, i: nat, n: nat, rest: seq<Span>)
    requires n < |addrs| && last <= i <= |msg| && InBounds(msg, addrs, i + |addrs[n].runes|, rest)
    requires InBounds(msg, addrs, last, [Span(i, n)] + rest)
    requires Continuation(f, msg, addrs, done, last, built, [Span(i, n)] + rest)
    requires Render(msg, addrs, last, [Span(i, n)] + rest) ==
             Raw(msg, last, i) + addrs[n].redacted + Render(msg, addrs, i + |addrs[n].runes|, rest)
    ensures Continuation(f, msg, addrs, done + [Span(i, n)],
                         i + |addrs[n].runes|, built + Raw(msg, last, i) + addrs[n].redacted, rest)
  {
    hide Redaction, InBounds, Render, Raw;
    assert done + ([Span(i, n)] + rest) == done + [Span(i, n)] + rest;
  }

  /** redactAddressesInError: the text comes back unchanged exactly when no address
      occurs anywhere in it; otherwise it is the message with precisely the specified
      spans replaced. err None is Go's nil error. */
  method RedactAddressesInError(f: Folding, err: Option<Text>, addrs: seq<Address>)
    returns (r: Result, ghost spans: seq<Span>)
    requires Cyclic(f)
    ensures err.None? ==> r == Unchanged
    ensures err.Some? ==>
              && Redaction(f, err.value, addrs, 0, spans) && InBounds(err.value, addrs, 0, spans)
              && r == if spans == [] then Unchanged else Redacted(Render(err.value, addrs, 0, spans))
    ensures err.Some? ==> (r == Unchanged <==> forall i :: 0 <= i < |err.value| ==> NoneAt(f, err.value, addrs, i))
  {
    hide Continues, NoneAt, Redaction, InBounds, Render, Raw, Cyclic, Before, Kept, FoldEqual;
    spans := [];
    if err.None? { return Unchanged, []; }
    var msg := err.value;
    StartContinues(f, msg, addrs);
    var uniq := Candidates(f, msg, addrs);
    if uniq == [] {
      forall i | 0 <= i < |msg| ensures NoneAt(f, msg, addrs, i) { FirstIsBest(f, msg, addrs, uniq, [], i, 0); }
      FinishContinues(f, msg, addrs, spans, 0, []);
      return Unchanged, [];
    }
    var s := SortByRunes(addrs, uniq);
    var b: Bytes := [];
    var matched, last, i := false, 0, 0;
    while i < |msg|
      invariant 0 <= last <= i <= |msg|
      invariant Continues(f, msg, addrs, spans, last, b)
      invariant forall x :: last <= x < i ==> NoneAt(f, msg, addrs, x)
      invariant matched <==> spans != []
      decreases |msg| - i
    {
      assert forall x :: 0 <= x < |s| ==> s[x] in uniq;
      var j := MatchAddressAt(f, msg, addrs, s, i);
      FirstIsBest(f, msg, addrs, uniq, s, i, j);
      if j < |s| {
        ContinueWith(f, msg, addrs, spans, last, b, i, s[j]);
        b := b + Raw(msg, last, i) + addrs[s[j]].redacted;
        spans := spans + [Span(i, s[j])];
        matched := true;
        i := i + |addrs[s[j]].runes|;
        last := i;
      } else {
        i := i + 1;
      }
    }
    FinishContinues(f, msg, addrs, spans, last, b);
    if !matched { return Unchanged, spans; }
    return Redacted(b + Raw(msg, last, |msg|)), spans;
  }

  lemma StartContinues(f: Folding, msg: Text, addrs: seq<Address>)
    ensures Continues(f, msg, addrs, [], 0, [])
  {
    forall rest: seq<Span> | Redaction(f, msg, addrs, 0, rest) && InBounds(msg, addrs, 0, rest)
      ensures Continuation(f, msg, addrs, [], 0, [], rest)
    {
      assert [] + rest == rest;
    }
  }

  lemma FinishContinues(f: Folding, msg: Text, addrs: seq<Address>, spans: seq<Span>, last: nat, built: Bytes)
    requires Continues(f, msg, addrs, spans, last, built)
    requires forall x :: last <= x < |msg| ==> NoneAt(f, msg, addrs, x)
    ensures Redaction(f, msg, addrs, 0, spans) && InBounds(msg, addrs, 0, spans)
    ensures Render(msg, addrs, 0, spans) == built + Raw(msg, last, |msg|)
    ensures spans != [] ==> exists i :: 0 <= i < |msg| && !NoneAt(f, msg, addrs, i)
  {
    var none: seq<Span> := [];
    assert Redaction(f, msg, addrs, last, none) && InBounds(msg, addrs, last, none);
    assert Continuation(f, msg, addrs, spans, last, built, none);
    assert spans + none == spans;
    if spans != [] { BestIsMatch(f, msg, addrs, spans[0]); }
  }
}
