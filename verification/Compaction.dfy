/** What compactOpenedAtList guarantees for every encodable record. */
module Compaction {
  import opened Wire
  import opened Record

  /** The record with only its newest k open entries fits the soft ceiling. */
  ghost predicate Fits(r: Rec, k: nat)
    requires k <= |r.openedAtList|
  {
    FitsWith(r, Newest(r.openedAtList, k))
  }

  lemma {:induction false} OpenBytesSuffix(l: seq<OpenEvent>, a: nat)
    requires a <= |l|
    ensures OpenBytes(l[a..]) <= OpenBytes(l)
  {
    if a < |l| {
      assert l[a..][..|l| - a - 1] == l[..|l| - 1][a..];
      OpenBytesSuffix(l[..|l| - 1], a);
    }
  }

  /** Dropping old entries never makes a record longer. */
  lemma FewerFit(r: Rec, p: nat, k: nat)
    requires p <= k <= |r.openedAtList| && Fits(r, k)
    ensures Fits(r, p)
  {
    var big := r.(openedAtList := Newest(r.openedAtList, k));
    var small := r.(openedAtList := Newest(r.openedAtList, p));
    assert small.openedAtList == big.openedAtList[k - p..];
    OpenBytesSuffix(big.openedAtList, k - p);
    assert forall e :: e in small.openedAtList ==> e in big.openedAtList;
    assert ListBytes(small) <= ListBytes(big);
    assert ScalarBytes(small) == ScalarBytes(big);
  }

  /** How many of the newest n entries the trimming loop keeps. */
  ghost function Kept(r: Rec, n: nat): (k: nat)
    requires n <= |r.openedAtList|
    ensures k <= n
  {
    if n == 0 || Fits(r, n) then n else Kept(r, if n < MAX_OPEN_EVENTS / 10 then 0 else n - MAX_OPEN_EVENTS / 10)
  }

  lemma {:induction false} TrimKeeps(r: Rec, n: nat)
    requires n <= |r.openedAtList|
    ensures TrimToFit(r, Newest(r.openedAtList, n)) == Newest(r.openedAtList, Kept(r, n))
    decreases n
  {
    hide FitsWith;
    if n > 0 && !Fits(r, n) {
      var m := if n < MAX_OPEN_EVENTS / 10 then 0 else n - MAX_OPEN_EVENTS / 10;
      TrimKeeps(r, m);
      assert TrimStep(Newest(r.openedAtList, n)) == Newest(r.openedAtList, m);
    }
  }

  /** What the loop keeps fits or is nothing, and fewer than fifty fitting entries are lost. */
  lemma {:induction false} KeptIsNearlyLongest(r: Rec, n: nat, k: nat)
    requires n <= |r.openedAtList| && k <= n
    ensures Kept(r, n) == 0 || Fits(r, Kept(r, n))
    ensures Fits(r, k) ==> Kept(r, n) >= k - 49
    decreases n
  {
    hide Fits;
    if n > 0 && !Fits(r, n) {
      var m := if n < MAX_OPEN_EVENTS / 10 then 0 else n - MAX_OPEN_EVENTS / 10;
      if k <= m {
        KeptIsNearlyLongest(r, m, k);
      } else {
        KeptIsNearlyLongest(r, m, m);
        if Fits(r, k) { FewerFit(r, m, k); KeptAll(r, m); }
      }
    }
  }

  /** Keeping `kept` entries falls at most 49 short of any suffix of at most 500 that fits. */
  ghost predicate NearlyLongest(r: Rec, kept: nat) {
    forall k :: 0 <= k <= |r.openedAtList| && k <= MAX_OPEN_EVENTS && Fits(r, k) ==> kept >= k - 49
  }

  lemma KeptLosesFew(r: Rec, n: nat)
    requires n == if |r.openedAtList| > MAX_OPEN_EVENTS then MAX_OPEN_EVENTS else |r.openedAtList|
    ensures Kept(r, n) == 0 || Fits(r, Kept(r, n))
    ensures NearlyLongest(r, Kept(r, n))
  {
    hide Fits, Kept;
    KeptIsNearlyLongest(r, n, 0);
    forall k | 0 <= k <= n && Fits(r, k) ensures Kept(r, n) >= k - 49 {
      KeptIsNearlyLongest(r, n, k);
    }
  }

  lemma KeptAll(r: Rec, n: nat)
    requires n <= |r.openedAtList| && Fits(r, n)
    ensures Kept(r, n) == n
  {
  }

  ghost predicate Trims(r: Rec) {
    |r.openedAtList| > MAX_OPEN_EVENTS || (r.openedAtList != [] && Size(RaiseCount(r)) > COMPACT_ABOVE_BYTES)
  }

  lemma CompactShape(r: Rec)
    requires Encodable(r)
    ensures var a := RaiseCount(r);
            var n := if |a.openedAtList| > MAX_OPEN_EVENTS then MAX_OPEN_EVENTS else |a.openedAtList|;
            && a.openedAtList == r.openedAtList
            && Compact(r) == if Trims(r) then a.(openedAtList := Newest(r.openedAtList, Kept(a, n))) else a
  {
    hide MarshalsWithin, Size, Encodable, TrimToFit, Kept;
    var a := RaiseCount(r);
    var n := if |a.openedAtList| > MAX_OPEN_EVENTS then MAX_OPEN_EVENTS else |a.openedAtList|;
    assert Encodable(a) by { RaisedEncodable(r); }
    TrimKeeps(a, n);
    if |a.openedAtList| <= MAX_OPEN_EVENTS {
      assert Newest(a.openedAtList, n) == a.openedAtList;
    }
  }

  /** compactOpenedAtList keeps a suffix of at most 500 entries and raises the
      count to the old list length. The list is untouched within both bounds;
      otherwise it ends empty or within 50,000 bytes, at most 49 entries short of
      the longest suffix that fits. */
  lemma CompactKeepsNewest(r: Rec)
    requires Encodable(r)
    ensures var c := Compact(r);
            var n := |r.openedAtList|;
            && |c.openedAtList| <= n && |c.openedAtList| <= 500
            && c == RaiseCount(r).(openedAtList := Newest(r.openedAtList, |c.openedAtList|))
            && c.openCount == (if r.openCount < n then n else r.openCount)
            && (n <= 500 && Size(RaiseCount(r)) <= 55_000 ==> c.openedAtList == r.openedAtList)
            && (n > 500 || Size(RaiseCount(r)) > 55_000 ==>
                && (c.openedAtList == [] || MarshalsWithin(c, 50_000))
                && NearlyLongest(RaiseCount(r), |c.openedAtList|))
  {
    hide MarshalsWithin, Size, Encodable, TrimToFit, Kept, Compact, NearlyLongest;
    var a := RaiseCount(r);
    var n := if |a.openedAtList| > MAX_OPEN_EVENTS then MAX_OPEN_EVENTS else |a.openedAtList|;
    CompactShape(r);
    assert Newest(r.openedAtList, |r.openedAtList|) == r.openedAtList;
    KeptLosesFew(a, n);
    if r.openedAtList == [] {
      NothingToLose(a);
    }
  }

  lemma NothingToLose(r: Rec)
    requires r.openedAtList == []
    ensures NearlyLongest(r, 0)
  {
  }

  lemma RaisedEncodable(r: Rec)
    ensures Encodable(RaiseCount(r)) == Encodable(r)
  {
  }
}
