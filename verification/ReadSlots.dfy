/** The read-slot semaphore and its shutdown drain, in every interleaving of
    arriving requests, finishing handlers and the drain. */
module ReadSlots {

  const MAX_IN_FLIGHT_READS := 8

  /** Replied: the handler has answered but its goroutine still holds the slot. */
  datatype Request = Running | Replied | Finished | Busy
  datatype Phase = Serving | Taking | TimedOut | Drained
  datatype Answer = Answer(request: nat, busy: bool)

  /** buffered: slots used in the channel; held: those taken by drainReads. */
  datatype State = State(buffered: nat, held: nat, phase: Phase, requests: map<nat, Request>, answers: seq<Answer>)

  datatype Step = Arrive(request: nat) | Reply(request: nat) | Release(request: nat) | StartTaking | Take | GiveUp

  ghost predicate Init(s: State) {
    s == State(0, 0, Serving, map[], [])
  }

  ghost predicate Next(s: State, t: State, step: Step) {
    match step
    // dispatchRead: take a free slot and start the handler, or reply "service busy".
    case Arrive(q) =>
      q !in s.requests &&
      t == if s.buffered < MAX_IN_FLIGHT_READS
           then s.(buffered := s.buffered + 1, requests := s.requests[q := Running])
           else s.(requests := s.requests[q := Busy], answers := s.answers + [Answer(q, true)])
    // The handler replies once.
    case Reply(q) =>
      q in s.requests && s.requests[q] == Running &&
      t == s.(requests := s.requests[q := Replied], answers := s.answers + [Answer(q, false)])
    // Its goroutine ends and gives the slot back.
    case Release(q) =>
      q in s.requests && s.requests[q] == Replied && s.buffered > 0 &&
      t == s.(buffered := s.buffered - 1, requests := s.requests[q := Finished])
    case StartTaking => s.phase == Serving && t == s.(phase := Taking)
    case Take =>
      && s.phase == Taking && s.buffered < MAX_IN_FLIGHT_READS
      && t == s.(buffered := s.buffered + 1, held := s.held + 1,
                 phase := if s.held + 1 == MAX_IN_FLIGHT_READS then Drained else Taking)
    case GiveUp => (s.phase == Serving || s.phase == Taking) && t == s.(phase := TimedOut)
  }

  predicate HoldsSlot(r: Request) {
    r == Running || r == Replied
  }

  /** The requests whose read goroutine has not ended. */
  ghost function InFlight(s: State): set<nat> {
    set q | q in s.requests && HoldsSlot(s.requests[q])
  }

  function AnswersTo(answers: seq<Answer>, q: nat): nat {
    if answers == [] then 0
    else AnswersTo(answers[..|answers| - 1], q) + if answers[|answers| - 1].request == q then 1 else 0
  }

  ghost predicate Inv(s: State) {
    && |InFlight(s)| + s.held == s.buffered <= MAX_IN_FLIGHT_READS
    && (s.phase == Serving ==> s.held == 0) && (s.phase == Taking ==> s.held < MAX_IN_FLIGHT_READS)
    && (s.phase == Drained ==> s.held == MAX_IN_FLIGHT_READS)
    && (forall q :: AnswersTo(s.answers, q) == if q in s.requests && s.requests[q] != Running then 1 else 0)
    && (forall q :: q in s.requests && s.requests[q] == Busy ==> Answer(q, true) in s.answers)
  }

  lemma AnswersSnoc(answers: seq<Answer>, a: Answer, q: nat)
    ensures AnswersTo(answers + [a], q) == AnswersTo(answers, q) + if a.request == q then 1 else 0
  {
    assert (answers + [a])[..|answers|] == answers;
  }

  lemma InitInv(s: State)
    requires Init(s)
    ensures Inv(s)
  {
    assert InFlight(s) == {};
  }

  lemma StartInv(s: State, t: State, q: nat)
    requires Inv(s) && Next(s, t, Arrive(q)) && s.buffered < MAX_IN_FLIGHT_READS
    ensures Inv(t)
  {
    hide AnswersTo;
    assert InFlight(t) == InFlight(s) + {q};
    assert forall x :: x != q ==> (x in t.requests <==> x in s.requests);
    assert forall x :: x != q && x in s.requests ==> t.requests[x] == s.requests[x];
    assert t.requests[q] == Running && t.answers == s.answers;
  }

  lemma RefuseInv(s: State, t: State, q: nat)
    requires Inv(s) && Next(s, t, Arrive(q)) && s.buffered >= MAX_IN_FLIGHT_READS
    ensures Inv(t)
  {
    hide AnswersTo;
    assert InFlight(t) == InFlight(s);
    forall x ensures AnswersTo(t.answers, x) == AnswersTo(s.answers, x) + if x == q then 1 else 0 {
      AnswersSnoc(s.answers, Answer(q, true), x);
    }
  }

  lemma ReplyInv(s: State, t: State, q: nat)
    requires Inv(s) && Next(s, t, Reply(q))
    ensures Inv(t)
  {
    hide AnswersTo;
    assert InFlight(t) == InFlight(s);
    forall x ensures AnswersTo(t.answers, x) == AnswersTo(s.answers, x) + if x == q then 1 else 0 {
      AnswersSnoc(s.answers, Answer(q, false), x);
    }
  }

  lemma ReleaseInv(s: State, t: State, q: nat)
    requires Inv(s) && Next(s, t, Release(q))
    ensures Inv(t)
  {
    hide AnswersTo;
    assert InFlight(s) == InFlight(t) + {q};
    assert t.answers == s.answers;
  }

  lemma DrainInv(s: State, t: State, step: Step)
    requires Inv(s) && Next(s, t, step) && (step.StartTaking? || step.Take? || step.GiveUp?)
    ensures Inv(t)
  {
    hide AnswersTo;
    assert InFlight(t) == InFlight(s);
  }

  lemma NextInv(s: State, t: State, step: Step)
    requires Inv(s) && Next(s, t, step)
    ensures Inv(t)
  {
    hide Inv, Next;
    match step {
      case Arrive(q) => if s.buffered < MAX_IN_FLIGHT_READS { StartInv(s, t, q); } else { RefuseInv(s, t, q); }
      case Reply(q) => ReplyInv(s, t, q);
      case Release(q) => ReleaseInv(s, t, q);
      case _ => DrainInv(s, t, step);
    }
  }

  // ---- whole runs ----

  ghost predicate Moves(s: State, t: State) {
    exists step :: Next(s, t, step)
  }

  ghost predicate IsRun(run: seq<State>) {
    run != [] && Init(run[0]) && forall i :: 0 <= i < |run| - 1 ==> Moves(run[i], run[i + 1])
  }

  lemma {:induction false} RunInv(run: seq<State>, i: nat)
    requires IsRun(run) && i < |run|
    ensures Inv(run[i])
  {
    hide Inv, Next, Init;
    if i == 0 {
      InitInv(run[0]);
    } else {
      RunInv(run, i - 1);
      assert Moves(run[i - 1], run[i - 1 + 1]);
      var step :| Next(run[i - 1], run[i], step);
      NextInv(run[i - 1], run[i], step);
    }
  }

  /** In every interleaving the read goroutines and the slots held by the drain are
      exactly the used slots, at most eight, and nobody is answered twice. */
  lemma SlotsAccountedFor(run: seq<State>, i: nat, q: nat)
    requires IsRun(run) && i < |run|
    ensures |InFlight(run[i])| + run[i].held == run[i].buffered <= MAX_IN_FLIGHT_READS
    ensures AnswersTo(run[i].answers, q) <= 1
    ensures AnswersTo(run[i].answers, q) == 1 <==> q in run[i].requests && run[i].requests[q] != Running
  {
    hide IsRun;
    RunInv(run, i);
  }

  lemma {:induction false} DrainedStays(run: seq<State>, i: nat, j: nat)
    requires IsRun(run) && i <= j < |run| && run[i].phase == Drained
    ensures run[j].phase == Drained
    ensures forall q :: q in run[j].requests ==> q in run[i].requests || run[j].requests[q] == Busy
  {
    if i < j {
      hide Init;
      DrainedStays(run, i, j - 1);
      RunInv(run, j - 1);
      assert Moves(run[j - 1], run[j - 1 + 1]);
      var step :| Next(run[j - 1], run[j], step);
    }
  }

  /** Once drainReads holds every slot no read handler is running and none ever starts:
      each later request gets exactly one reply, "service busy". */
  lemma DrainedMeansQuiet(run: seq<State>, i: nat, j: nat)
    requires IsRun(run) && i <= j < |run| && run[i].phase == Drained
    ensures InFlight(run[j]) == {}
    ensures forall q :: q in run[j].requests && q !in run[i].requests ==>
              run[j].requests[q] == Busy && Answer(q, true) in run[j].answers && AnswersTo(run[j].answers, q) == 1
  {
    hide IsRun;
    DrainedStays(run, i, j);
    RunInv(run, j);
  }

  /** The drain can take its last slot only when every handler has finished. */
  lemma LastSlotNeedsQuiet(s: State, t: State)
    requires Inv(s) && Next(s, t, Take) && t.phase == Drained
    ensures InFlight(s) == {}
  {
  }

  /** A request is started exactly if a slot is free, counting running reads and the
      slots the drain holds; otherwise it is told "service busy" at once. */
  lemma StartedIffSlotFree(s: State, t: State, q: nat)
    requires Inv(s) && Next(s, t, Arrive(q))
    ensures q in t.requests
    ensures |InFlight(s)| + s.held < 8 <==> t.requests[q] == Running
    ensures |InFlight(s)| + s.held >= 8 <==> t.requests[q] == Busy && t.answers == s.answers + [Answer(q, true)]
  {
    hide AnswersTo;
  }

  /** With no read in flight the drain always reaches its last slot. */
  lemma {:induction false} QuietDrainCompletes(s: State) returns (run: seq<State>)
    requires Inv(s) && s.phase == Taking && InFlight(s) == {}
    ensures run != [] && run[0] == s && run[|run| - 1].phase == Drained
    ensures forall i :: 0 <= i < |run| - 1 ==> Next(run[i], run[i + 1], Take)
    decreases MAX_IN_FLIGHT_READS - s.held
  {
    hide AnswersTo;
    var t := s.(buffered := s.buffered + 1, held := s.held + 1,
                phase := if s.held + 1 == MAX_IN_FLIGHT_READS then Drained else Taking);
    assert Next(s, t, Take);
    if t.phase == Drained {
      run := [s, t];
    } else {
      DrainInv(s, t, Take);
      assert InFlight(t) == InFlight(s);
      var rest := QuietDrainCompletes(t);
      run := [s] + rest;
      forall i | 0 <= i < |run| - 1 ensures Next(run[i], run[i + 1], Take) {
        if i > 0 { assert run[i] == rest[i - 1] && run[i + 1] == rest[i - 1 + 1]; }
      }
    }
  }
}
