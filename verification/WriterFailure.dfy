/** The cache server when writing a response may fail: the writer ends and nobody reads the
    response channel any more, but the handlers and the close request still send to it. */
module CacheServerFailure {
  import opened Wrappers
  import opened CacheServer

  /** A server, and whether its writer has failed. A failed writer has ended; its failure
      cancels a context nobody else waits on. */
  datatype Failing = Failing(s: Sys, failed: bool)

  datatype Turn = Base(e: Event) | WriteFails

  predicate CanTurn(f: Failing, t: Turn) {
    match t case Base(e) => Enabled(f.s, e) case WriteFails => f.s.writer.Writing?
  }

  function TakeTurn(f: Failing, t: Turn): Failing
    requires CanTurn(f, t)
  {
    match t
    case Base(e) => Failing(Step(f.s, e), f.failed)
    case WriteFails => Failing(f.s.(writer := Ended), true)
  }

  // ----- the invariant -----

  /** What is left of the server's invariant once the writer is gone. */
  ghost predicate Headless(requests: seq<Request>, s: Sys) {
    && s.writer == Ended && |s.channel| <= 1 && Intake(requests, s)
    && (s.closed <==> s.reader in {Joining, Returned})
    && (s.reader in {Replying, Finishing, Joining, Returned} ==> s.tasks == [])
    && (s.closing.Some? <==> s.reader !in {Reading, Abandoned})
    && (s.closing.Some? ==> s.closing.value.cmd == Close)
    && (s.dropped != [] ==> s.reader == Abandoned)
    && |s.replies| + |s.dropped| + |s.tasks| == |s.read|
  }

  ghost predicate Kept(requests: seq<Request>, f: Failing) {
    if f.failed then Headless(requests, f.s) else Inv(requests, f.s)
  }

  lemma CountLengths(s: Sys)
    requires Count(s)
    ensures |s.replies| + |s.dropped| + |s.tasks| == |s.read|
  {
    assert |multiset(Requests(s.replies)) + multiset(s.dropped) + multiset(Working(s.tasks))| == |multiset(s.read)|;
  }

  lemma TurnKeeps(requests: seq<Request>, f: Failing, t: Turn)
    requires Kept(requests, f) && CanTurn(f, t)
    ensures Kept(requests, TakeTurn(f, t))
  {
    hide Inv, Headless, Enabled, Step;
    if t == WriteFails {
      if !f.failed { FailureKeeps(requests, f.s); } else { HeadlessIsEnded(requests, f.s); }
    } else if f.failed {
      HeadlessKeeps(requests, f.s, t.e);
    } else {
      StepKeepsInv(requests, f.s, t.e);
    }
  }

  lemma HeadlessIsEnded(requests: seq<Request>, s: Sys)
    requires Headless(requests, s)
    ensures s.writer == Ended
  {
  }

  lemma FailureKeeps(requests: seq<Request>, s: Sys)
    requires Inv(requests, s) && s.writer.Writing?
    ensures Headless(requests, s.(writer := Ended))
  {
    hide Count, Flow, AllReplies, TasksAnswer;
    CountLengths(s);
  }

  lemma HeadlessKeeps(requests: seq<Request>, s: Sys, e: Event)
    requires Headless(requests, s) && Enabled(s, e)
    ensures Headless(requests, Step(s, e))
  {
    if e == Read {
      assert s.input == [s.input[0]] + s.input[1..];
    }
  }

  // ----- how many responses are still to come -----

  function Owed(n: nat, s: Sys): int {
    n + 1 - |s.replies| - if CloseSent(s) then 1 else 0
  }

  /** With a close request at `n`: the responses the channel holds or has still to take. */
  function Left(n: nat, s: Sys): int {
    Owed(n, s) + |s.channel|
  }

  /** Without a writer their number does not change. */
  lemma LeftIsFixed(requests: seq<Request>, n: nat, s: Sys, e: Event)
    requires Headless(requests, s) && Enabled(s, e)
    ensures Left(n, Step(s, e)) == Left(n, s)
  {
  }

  /** The response a writer fails on is not among them. */
  lemma LeftAtFailure(requests: seq<Request>, n: nat, s: Sys)
    requires Inv(requests, s) && s.writer.Writing?
    ensures Left(n, s) <= n
  {
    hide Intake, AllReplies, TasksAnswer, Count;
    assert |Sent(s)| == |s.output| + 1 + |s.channel|;
  }

  lemma CloseAhead(requests: seq<Request>, s: Sys, n: nat)
    requires Intake(requests, s) && s.closing.None? && ClosesAt(requests, n)
    ensures s.input != []
  {
    assert forall i :: 0 <= i < |s.read| ==> requests[i] == s.read[i] && s.read[i].cmd != Close;
  }

  /** Where a server without a writer ends: it has returned exactly when what was left fitted
      into the channel. */
  lemma HeadlessEnd(requests: seq<Request>, s: Sys, n: nat)
    requires Headless(requests, s) && ClosesAt(requests, n) && s.reader != Abandoned && Final(s)
    ensures s.reader == Returned <==> Left(n, s) <= 1
  {
    if s.reader == Reading {
      assert Enabled(s, if s.input != [] then Read else EndOfInput);
    } else {
      CloseIsFirst(requests, s, n);
      if s.reader == Waiting && s.tasks != [] {
        var t := s.tasks[0];
        var body := if t.req.cmd == Close then Closed else if Refuses(s.puts, t.req) then Refused else Result(0);
        assert !Enabled(s, if t.reply == None then Work(0, body) else Send(0));
      }
      assert !Enabled(s, AllHandled) && !Enabled(s, SendClose) && !Enabled(s, CloseChannel) && !Enabled(s, Join);
    }
  }

  // ----- whole runs -----

  ghost predicate FailingRun(puts: bool, requests: seq<Request>, trace: seq<Failing>) {
    && trace != [] && trace[0] == Failing(Initial(puts, requests), false)
    && forall i :: 0 < i < |trace| ==> NextTurn(trace[i - 1], trace[i])
  }

  ghost predicate NextTurn(f: Failing, f': Failing) {
    exists t :: CanTurn(f, t) && f' == TakeTurn(f, t)
  }

  ghost predicate Halted(f: Failing) {
    forall t :: !CanTurn(f, t)
  }

  /** `trace` is a run that ends in `f` and can go no further. */
  ghost predicate HaltsIn(puts: bool, requests: seq<Request>, trace: seq<Failing>, f: Failing) {
    FailingRun(puts, requests, trace) && f == trace[|trace| - 1] && Halted(f)
  }

  lemma HaltedIsFinal(f: Failing)
    requires Halted(f)
    ensures Final(f.s)
  {
    hide Enabled;
    forall e ensures !Enabled(f.s, e) { assert !CanTurn(f, Base(e)); }
  }

  /** What holds at every moment of a run; with a close request to come the input is never
      given up, and a failed writer leaves at most `n` responses. */
  lemma {:induction false} RunKeeps(puts: bool, requests: seq<Request>, trace: seq<Failing>, i: nat)
    requires FailingRun(puts, requests, trace) && i < |trace|
    ensures Kept(requests, trace[i])
    ensures forall n: nat :: ClosesAt(requests, n) ==>
      trace[i].s.reader != Abandoned && (trace[i].failed ==> Left(n, trace[i].s) <= n)
  {
    hide Inv, Headless, Enabled, Step, Left;
    if i == 0 {
      InitialInv(puts, requests);
    } else {
      RunKeeps(puts, requests, trace, i - 1);
      var f := trace[i - 1];
      assert NextTurn(f, trace[i]);
      var t :| CanTurn(f, t) && trace[i] == TakeTurn(f, t);
      TurnKeeps(requests, f, t);
      forall n: nat | ClosesAt(requests, n)
        ensures trace[i].s.reader != Abandoned && (trace[i].failed ==> Left(n, trace[i].s) <= n)
      {
        TurnKeepsLeft(requests, f, t, n);
      }
    }
  }

  lemma TurnKeepsLeft(requests: seq<Request>, f: Failing, t: Turn, n: nat)
    requires Kept(requests, f) && CanTurn(f, t) && ClosesAt(requests, n) && f.s.reader != Abandoned
    ensures var f' := TakeTurn(f, t);
      f'.s.reader != Abandoned && (f.failed ==> Left(n, f'.s) == Left(n, f.s)) && (f'.failed && !f.failed ==> Left(n, f'.s) <= n)
  {
    hide Left, Count, Flow, AllReplies, TasksAnswer;
    if f.s.reader == Reading { CloseAhead(requests, f.s, n); }
    if f.failed {
      LeftIsFixed(requests, n, f.s, t.e);
    } else if t == WriteFails {
      LeftAtFailure(requests, n, f.s);
      SameLeft(n, f.s, TakeTurn(f, t).s);
    }
  }

  lemma SameLeft(n: nat, s: Sys, s': Sys)
    requires s' == s.(writer := Ended)
    ensures Left(n, s') == Left(n, s)
  {
  }

  lemma {:induction false} LeftStays(puts: bool, requests: seq<Request>, trace: seq<Failing>, i: nat, j: nat, n: nat)
    requires FailingRun(puts, requests, trace) && i <= j < |trace| && trace[i].failed && ClosesAt(requests, n)
    ensures trace[j].failed && Left(n, trace[j].s) == Left(n, trace[i].s)
  {
    hide Kept, Enabled, Step, Left;
    if i < j {
      LeftStays(puts, requests, trace, i, j - 1, n);
      RunKeeps(puts, requests, trace, j - 1);
      assert NextTurn(trace[j - 1], trace[j]);
      var t :| CanTurn(trace[j - 1], t) && trace[j] == TakeTurn(trace[j - 1], t);
      TurnKeepsLeft(requests, trace[j - 1], t, n);
    }
  }

  /** From the moment the writer fails it is settled: a run that can go no further has
      returned if at most one response was left then, and is stuck for ever otherwise. */
  lemma FailureStuckIff(puts: bool, requests: seq<Request>, trace: seq<Failing>, f: Failing, i: nat, n: nat)
    requires HaltsIn(puts, requests, trace, f) && i < |trace| && trace[i].failed && ClosesAt(requests, n)
    ensures f.s.reader == Returned <==> Left(n, trace[i].s) <= 1
  {
    hide Headless, Inv, Left;
    var k := |trace| - 1;
    RunKeeps(puts, requests, trace, k);
    LeftStays(puts, requests, trace, i, k, n);
    HaltedIsFinal(f);
    HeadlessEnd(requests, f.s, n);
  }

  // ----- which inputs are safe -----

  lemma TurnReducesWork(requests: seq<Request>, f: Failing, t: Turn)
    requires Kept(requests, f) && CanTurn(f, t)
    ensures StepsLeft(TakeTurn(f, t).s) < StepsLeft(f.s)
  {
    hide Intake, Count, Flow, AllReplies, TasksAnswer, TaskWork;
    if t.Base? { StepReducesWork(f.s, t.e); }
  }

  lemma ExtendTurn(puts: bool, requests: seq<Request>, trace: seq<Failing>, t: Turn)
    requires FailingRun(puts, requests, trace) && CanTurn(trace[|trace| - 1], t)
    ensures FailingRun(puts, requests, trace + [TakeTurn(trace[|trace| - 1], t)])
  {
    hide CanTurn, TakeTurn;
    assert NextTurn(trace[|trace| - 1], TakeTurn(trace[|trace| - 1], t));
  }

  /** Every run can be carried on until it halts. */
  lemma {:induction false} RunToHalt(puts: bool, requests: seq<Request>, trace0: seq<Failing>) returns (trace: seq<Failing>)
    requires FailingRun(puts, requests, trace0)
    ensures trace != [] && trace0 <= trace && HaltsIn(puts, requests, trace, trace[|trace| - 1])
    decreases StepsLeft(trace0[|trace0| - 1].s)
  {
    hide CanTurn, TakeTurn, StepsLeft, Kept;
    var f := trace0[|trace0| - 1];
    if t :| CanTurn(f, t) {
      ExtendTurn(puts, requests, trace0, t);
      RunKeeps(puts, requests, trace0, |trace0| - 1);
      TurnReducesWork(requests, f, t);
      trace := RunToHalt(puts, requests, trace0 + [TakeTurn(f, t)]);
    } else {
      trace := trace0;
    }
  }

  /** The writer fails on its first response while all others are still to come. */
  lemma EarlyFailure(puts: bool, requests: seq<Request>, n: nat) returns (trace: seq<Failing>)
    requires ClosesAt(requests, n) && n >= 1
    ensures FailingRun(puts, requests, trace)
    ensures var f := trace[|trace| - 1]; f.failed && Left(n, f.s) == n
  {
    var body := if Refuses(puts, requests[0]) then Refused else Result(0);
    trace := [Failing(Initial(puts, requests), false)];
    ExtendTurn(puts, requests, trace, Base(Read));
    trace := trace + [TakeTurn(trace[|trace| - 1], Base(Read))];
    ExtendTurn(puts, requests, trace, Base(Work(0, body)));
    trace := trace + [TakeTurn(trace[|trace| - 1], Base(Work(0, body)))];
    ExtendTurn(puts, requests, trace, Base(Send(0)));
    trace := trace + [TakeTurn(trace[|trace| - 1], Base(Send(0)))];
    ExtendTurn(puts, requests, trace, Base(Take));
    trace := trace + [TakeTurn(trace[|trace| - 1], Base(Take))];
    ExtendTurn(puts, requests, trace, WriteFails);
    trace := trace + [TakeTurn(trace[|trace| - 1], WriteFails)];
  }

  /** Without a close request a halted server has left at the end of its input. */
  lemma HaltsAtEnd(requests: seq<Request>, f: Failing)
    requires Kept(requests, f) && Halted(f) && NoClose(requests)
    ensures f.s.reader == Abandoned
  {
    hide Count, Flow, AllReplies, TasksAnswer;
    HaltedIsFinal(f);
    assert forall r :: f.s.closing == Some(r) ==> r in requests;
    assert f.s.reader == Reading ==> Enabled(f.s, if f.s.input != [] then Read else EndOfInput);
  }

  /** No run of the server ends stuck, wherever its writer fails. */
  ghost predicate NeverStuck(puts: bool, requests: seq<Request>) {
    forall trace, f :: HaltsIn(puts, requests, trace, f) ==> f.s.reader in {Returned, Abandoned}
  }

  /** A failing writer can hang the server exactly when a close request follows two or more
      others. */
  lemma NeverStuckIff(puts: bool, requests: seq<Request>)
    ensures NeverStuck(puts, requests) <==> forall n: nat :: ClosesAt(requests, n) ==> n <= 1
  {
    hide Kept, Left, Halted, FailingRun;
    if n: nat :| ClosesAt(requests, n) && n >= 2 {
      StuckRun(puts, requests, n);
    } else {
      forall trace, f | HaltsIn(puts, requests, trace, f) ensures f.s.reader in {Returned, Abandoned} {
        ShortRunHalts(puts, requests, trace, f);
      }
    }
  }

  lemma StuckRun(puts: bool, requests: seq<Request>, n: nat)
    requires ClosesAt(requests, n) && n >= 2
    ensures !NeverStuck(puts, requests)
  {
    hide Kept, Left, Halted;
    var start := EarlyFailure(puts, requests, n);
    var trace := RunToHalt(puts, requests, start);
    var f := trace[|trace| - 1];
    assert trace[|start| - 1] == start[|start| - 1];
    FailureStuckIff(puts, requests, trace, f, |start| - 1, n);
    RunKeeps(puts, requests, trace, |trace| - 1);
    assert HaltsIn(puts, requests, trace, f) && f.s.reader !in {Returned, Abandoned};
  }

  lemma ShortRunHalts(puts: bool, requests: seq<Request>, trace: seq<Failing>, f: Failing)
    requires HaltsIn(puts, requests, trace, f) && forall n: nat :: ClosesAt(requests, n) ==> n <= 1
    ensures f.s.reader in {Returned, Abandoned}
  {
    hide Headless, Inv, Left, Halted, Final, Enabled;
    RunKeeps(puts, requests, trace, |trace| - 1);
    HaltedIsFinal(f);
    if NoClose(requests) {
      HaltsAtEnd(requests, f);
    } else {
      var n := SomeCloseIsFirst(requests);
      if f.failed {
        FailureStuckIff(puts, requests, trace, f, |trace| - 1, n);
      } else {
        MovesUnlessDone(requests, f.s);
      }
    }
  }

  lemma MovesUnlessDone(requests: seq<Request>, s: Sys)
    requires Inv(requests, s) && Final(s)
    ensures s.reader in {Returned, Abandoned}
  {
    hide Inv, Enabled;
    if s.reader !in {Returned, Abandoned} { NoDeadlock(requests, s); }
  }
}
