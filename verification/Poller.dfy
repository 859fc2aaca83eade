/** The SQS poller's loop: messages are deleted only after their handler succeeded,
    and the loop aborts after too many receive failures in a row. */
module Poller {

  /** What one round of the loop meets: cancellation, a failed receive, or messages. */
  datatype Poll = Stop | ReceiveFailed | Batch(messages: seq<nat>)

  /** Receive failures in a row directly before round n. */
  function FailuresInARow(polls: seq<Poll>, n: nat): nat
    requires n <= |polls|
  {
    if n == 0 || polls[n - 1] != ReceiveFailed then 0 else 1 + FailuresInARow(polls, n - 1)
  }

  /** All messages of the first n rounds, in the order they are handled. */
  function Received(polls: seq<Poll>, n: nat): seq<nat>
    requires n <= |polls|
  {
    if n == 0 then []
    else Received(polls, n - 1) + if polls[n - 1].Batch? then polls[n - 1].messages else []
  }

  /** Those whose handling, the k-th overall, returned nil. */
  function Succeeded(handled: seq<nat>, ok: nat -> bool): seq<nat> {
    if handled == [] then []
    else Succeeded(handled[..|handled| - 1], ok) + if ok(|handled| - 1) then [handled[|handled| - 1]] else []
  }

  lemma SucceededSnoc(handled: seq<nat>, m: nat, ok: nat -> bool)
    ensures Succeeded(handled + [m], ok) == Succeeded(handled, ok) + if ok(|handled|) then [m] else []
  {
    assert (handled + [m])[..|handled|] == handled;
  }

  /** A deletion is requested for a message exactly if some handling of it succeeded. */
  lemma {:induction false} RequestedIffSucceeded(handled: seq<nat>, ok: nat -> bool, m: nat)
    ensures m in Succeeded(handled, ok) <==> exists k :: 0 <= k < |handled| && handled[k] == m && ok(k)
  {
    if handled != [] {
      var init := handled[..|handled| - 1];
      RequestedIffSucceeded(init, ok, m);
      if exists k :: 0 <= k < |handled| && handled[k] == m && ok(k) {
        var k :| 0 <= k < |handled| && handled[k] == m && ok(k);
        assert k < |init| ==> init[k] == m;
      }
      if m in Succeeded(init, ok) {
        var k :| 0 <= k < |init| && init[k] == m && ok(k);
        assert handled[k] == m;
      }
    }
  }

  /** Handling k was of m and succeeded, and its deletion took effect. */
  ghost predicate DeletedAt(handled: seq<nat>, ok: nat -> bool, effective: nat -> bool, m: nat, k: nat)
    requires k < |handled|
  {
    handled[k] == m && ok(k) && effective(|Succeeded(handled[..k], ok)|)
  }

  lemma SameDeletion(init: seq<nat>, x: nat, ok: nat -> bool, effective: nat -> bool, m: nat, k: nat)
    requires k < |init|
    ensures DeletedAt(init, ok, effective, m, k) <==> DeletedAt(init + [x], ok, effective, m, k)
  {
    assert (init + [x])[..k] == init[..k];
  }

  /** What one more handling adds to the deleted messages. */
  lemma DeletedSnoc(init: seq<nat>, x: nat, ok: nat -> bool, effective: nat -> bool, m: nat)
    ensures m in Succeeded(Succeeded(init + [x], ok), effective) <==>
            m in Succeeded(Succeeded(init, ok), effective) || DeletedAt(init + [x], ok, effective, m, |init|)
  {
    assert (init + [x])[..|init|] == init;
    hide Succeeded;
    SucceededSnoc(init, x, ok);
    var asked := Succeeded(init, ok);
    if ok(|init|) {
      SucceededSnoc(asked, x, effective);
    } else {
      assert asked + [] == asked;
    }
  }

  /** A message is gone exactly if some handling of it succeeded and the deletion
      requested for that handling took effect. */
  lemma {:induction false} DeletedIffSucceeded(handled: seq<nat>, ok: nat -> bool, effective: nat -> bool, m: nat)
    ensures m in Succeeded(Succeeded(handled, ok), effective) <==>
            exists k :: 0 <= k < |handled| && DeletedAt(handled, ok, effective, m, k)
  {
    hide Succeeded, DeletedAt;
    if handled == [] {
      NoRounds([], ok);
      NoRounds([], effective);
    } else {
      var init, x := handled[..|handled| - 1], handled[|handled| - 1];
      assert init + [x] == handled;
      DeletedIffSucceeded(init, ok, effective, m);
      DeletedSnoc(init, x, ok, effective, m);
      forall k | 0 <= k < |init|
        ensures DeletedAt(init, ok, effective, m, k) <==> DeletedAt(handled, ok, effective, m, k)
      {
        SameDeletion(init, x, ok, effective, m, k);
      }
    }
  }

  /** The limit that takes effect: the first failure aborts when it is below one. */
  function Limit(maxConsecutiveErrors: int): nat {
    if maxConsecutiveErrors < 1 then 1 else maxConsecutiveErrors
  }

  lemma RoundLaws(polls: seq<Poll>, n: nat)
    requires n < |polls|
    ensures FailuresInARow(polls, n + 1) == if polls[n] == ReceiveFailed then FailuresInARow(polls, n) + 1 else 0
    ensures Received(polls, n + 1) == Received(polls, n) + if polls[n].Batch? then polls[n].messages else []
  {
  }

  /** The count is of the failures directly before round n, back to the last round without one. */
  lemma {:induction false} FailuresMeaning(polls: seq<Poll>, n: nat)
    requires n <= |polls|
    ensures var k := FailuresInARow(polls, n);
            && k <= n && (forall i :: n - k <= i < n ==> polls[i] == ReceiveFailed)
            && (k < n ==> polls[n - k - 1] != ReceiveFailed)
  {
    if n > 0 && polls[n - 1] == ReceiveFailed { FailuresMeaning(polls, n - 1); }
  }

  lemma NoRounds(polls: seq<Poll>, ok: nat -> bool)
    ensures FailuresInARow(polls, 0) == 0 && Received(polls, 0) == [] && Succeeded([], ok) == []
  {
  }

  /** One batch: each message is handled, and its deletion requested if its handler
      returned nil; a deletion that fails is only logged. effective(k) says whether the
      k-th deletion request takes effect. */
  method HandleBatch(messages: seq<nat>, before: seq<nat>, requestedBefore: seq<nat>, deletedBefore: seq<nat>,
                     ok: nat -> bool, effective: nat -> bool)
    returns (handled: seq<nat>, requested: seq<nat>, deleted: seq<nat>)
    requires requestedBefore == Succeeded(before, ok) && deletedBefore == Succeeded(requestedBefore, effective)
    ensures handled == before + messages
    ensures requested == Succeeded(handled, ok) && deleted == Succeeded(requested, effective)
  {
    hide Succeeded;
    handled, requested, deleted := before, requestedBefore, deletedBefore;
    for k := 0 to |messages|
      invariant handled == before + messages[..k]
      invariant requested == Succeeded(handled, ok) && deleted == Succeeded(requested, effective)
    {
      SucceededSnoc(handled, messages[k], ok);
      SucceededSnoc(requested, messages[k], effective);
      if ok(|handled|) {
        if effective(|requested|) { deleted := deleted + [messages[k]]; }
        requested := requested + [messages[k]];
      }
      handled := handled + [messages[k]];
    }
  }

  /** Runs until cancelled or aborted. rounds is how many receives were made. */
  method Run(polls: seq<Poll>, maxConsecutiveErrors: int, ok: nat -> bool, effective: nat -> bool)
    returns (aborted: bool, rounds: nat, handled: seq<nat>, requested: seq<nat>, deleted: seq<nat>)
    ensures rounds <= |polls| && handled == Received(polls, rounds)
    ensures requested == Succeeded(handled, ok) && deleted == Succeeded(requested, effective)
    ensures aborted <==> FailuresInARow(polls, rounds) >= 1 && FailuresInARow(polls, rounds) >= maxConsecutiveErrors
    ensures forall n :: 0 <= n < rounds ==>
              polls[n] != Stop && (FailuresInARow(polls, n) == 0 || FailuresInARow(polls, n) < maxConsecutiveErrors)
    ensures !aborted ==> rounds == |polls| || polls[rounds] == Stop
  {
    hide FailuresInARow, Received, Succeeded;
    NoRounds(polls, ok);
    NoRounds(polls, effective);
    var consecutiveErrors := 0;
    rounds, handled, requested, deleted := 0, [], [], [];
    while rounds < |polls|
      invariant rounds <= |polls| && consecutiveErrors == FailuresInARow(polls, rounds) < Limit(maxConsecutiveErrors)
      invariant handled == Received(polls, rounds)
      invariant requested == Succeeded(handled, ok) && deleted == Succeeded(requested, effective)
      invariant forall n :: 0 <= n < rounds ==>
                  polls[n] != Stop && FailuresInARow(polls, n) < Limit(maxConsecutiveErrors)
    {
      RoundLaws(polls, rounds);
      match polls[rounds] {
        case Stop => return false, rounds, handled, requested, deleted;
        case ReceiveFailed =>
          rounds, consecutiveErrors := rounds + 1, consecutiveErrors + 1;
          if consecutiveErrors >= maxConsecutiveErrors { return true, rounds, handled, requested, deleted; }
        case Batch(messages) =>
          consecutiveErrors := 0;
          handled, requested, deleted := HandleBatch(messages, handled, requested, deleted, ok, effective);
          rounds := rounds + 1;
      }
    }
    return false, rounds, handled, requested, deleted;
  }
}
