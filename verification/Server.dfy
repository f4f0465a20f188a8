/** The cache server's request loop as a state machine over the steps of its goroutines. */
module CacheServer {
  // There is one reader, one goroutine per request, a response channel of capacity one and
  // one writer. No step fails; the context is cancelled when the reader returns, which at
  // the end of its input it does at once.

  import opened Wrappers

  datatype Cmd = Close | Get | Put | Unknown

  datatype Request = Request(id: int, cmd: Cmd)

  /** What a handler answers: a storage result, or the error for a refused command. */
  datatype Body = Result(content: int) | Refused | Closed

  datatype Response = Capabilities(puts: bool) | Reply(req: Request, body: Body)

  function Id(r: Response): int {
    match r case Capabilities(_) => 0 case Reply(req, _) => req.id
  }

  /** A request's goroutine: still working, or ready to send its reply. */
  datatype Task = Task(req: Request, reply: Option<Body>)

  datatype Reader = Reading | Waiting | Replying | Finishing | Joining | Returned | Abandoned

  datatype Writer = Idle | Writing(resp: Response) | Ended

  /** `read`, `replies` and `dropped` record the requests taken on, the replies sent and the
      requests given up so far; `closing` is the close request once it has been read.
      `Abandoned` is a reader that met the end of its input and cancelled the context. */
  datatype Sys = Sys(
    puts: bool, input: seq<Request>, reader: Reader, tasks: seq<Task>,
    channel: seq<Response>, closed: bool, writer: Writer, output: seq<Response>,
    closing: Option<Request>, read: seq<Request>, replies: seq<Response>, dropped: seq<Request>)

  datatype Event =
    | Read | Work(task: nat, body: Body) | Send(task: nat)
    | AllHandled | SendClose | CloseChannel | Join
    | Take | Write | EndWriter | EndOfInput
    | CancelTask(task: nat) | CancelWriter

  function Initial(puts: bool, requests: seq<Request>): Sys {
    Sys(puts, requests, Reading, [], [], false, Idle, [Capabilities(puts)], None, [], [], [])
  }

  predicate Refuses(puts: bool, req: Request) {
    req.cmd == Unknown || (req.cmd == Put && !puts)
  }

  predicate Answers(puts: bool, req: Request, body: Body) {
    if req.cmd == Close then body == Closed
    else if Refuses(puts, req) then body == Refused
    else body.Result?
  }

  predicate Enabled(s: Sys, e: Event) {
    match e
    case Read => s.reader == Reading && s.input != []
    case Work(k, body) => k < |s.tasks| && s.tasks[k].reply == None && Answers(s.puts, s.tasks[k].req, body)
    case Send(k) => k < |s.tasks| && s.tasks[k].reply != None && |s.channel| < 1 && !s.closed
    case AllHandled => s.reader == Waiting && s.tasks == []
    case SendClose => s.reader == Replying && s.closing.Some? && |s.channel| < 1
    case CloseChannel => s.reader == Finishing
    case Join => s.reader == Joining && s.writer == Ended
    case Take => s.writer == Idle && s.channel != []
    case Write => s.writer.Writing?
    case EndWriter => s.writer == Idle && s.channel == [] && s.closed
    case EndOfInput => s.reader == Reading && s.input == []
    case CancelTask(k) => s.reader == Abandoned && k < |s.tasks|
    case CancelWriter => s.reader == Abandoned && s.writer == Idle
  }

  function Step(s: Sys, e: Event): (s': Sys)
    requires Enabled(s, e)
    ensures s'.puts == s.puts
  {
    match e
    case Read =>
      var req := s.input[0];
      var s1 := s.(input := s.input[1..]);
      if req.cmd == Close then s1.(reader := Waiting, closing := Some(req))
      else s1.(tasks := s.tasks + [Task(req, None)], read := s.read + [req])
    case Work(k, body) => s.(tasks := s.tasks[k := Task(s.tasks[k].req, Some(body))])
    case Send(k) =>
      var resp := Reply(s.tasks[k].req, s.tasks[k].reply.value);
      s.(tasks := s.tasks[..k] + s.tasks[k + 1..], channel := s.channel + [resp], replies := s.replies + [resp])
    case AllHandled => s.(reader := Replying)
    case SendClose => s.(reader := Finishing, channel := s.channel + [Reply(s.closing.value, Closed)])
    case CloseChannel => s.(reader := Joining, closed := true)
    case Join => s.(reader := Returned)
    case Take => s.(writer := Writing(s.channel[0]), channel := s.channel[1..])
    case Write => s.(writer := Idle, output := s.output + [s.writer.resp])
    case EndWriter => s.(writer := Ended)
    case EndOfInput => s.(reader := Abandoned)
    case CancelTask(k) => s.(tasks := s.tasks[..k] + s.tasks[k + 1..], dropped := s.dropped + [s.tasks[k].req])
    case CancelWriter => s.(writer := Ended)
  }

  // ----- the invariant -----

  function Requests(rs: seq<Response>): seq<Request>
    requires forall r :: r in rs ==> r.Reply?
  {
    seq(|rs|, i requires 0 <= i < |rs| => rs[i].req)
  }

  function Working(ts: seq<Task>): seq<Request> {
    seq(|ts|, i requires 0 <= i < |ts| => ts[i].req)
  }

  /** Everything that has entered the channel, in order. */
  function Sent(s: Sys): seq<Response> {
    s.output + (if s.writer.Writing? then [s.writer.resp] else []) + s.channel
  }

  predicate CloseSent(s: Sys) {
    s.reader in {Finishing, Joining, Returned}
  }

  /** How the phases of reader, channel and writer fit together. */
  predicate Phases(s: Sys) {
    && |s.channel| <= 1
    && (s.closed <==> s.reader in {Joining, Returned})
    && s.output != []
    && (s.writer == Ended && s.reader != Abandoned ==> s.closed && s.channel == [])
    && (s.dropped != [] ==> s.reader == Abandoned)
    && (s.reader in {Replying, Finishing, Joining, Returned} ==> s.tasks == [])
    && (s.reader == Returned ==> s.writer == Ended)
    && (s.closing.Some? <==> s.reader !in {Reading, Abandoned})
    && (s.closing.Some? ==> s.closing.value.cmd == Close)
  }

  /** The requests are split into those read, the close request and those left. */
  ghost predicate Intake(requests: seq<Request>, s: Sys) {
    && (forall r :: r in s.read ==> r.cmd != Close)
    && requests == s.read + (if s.closing.Some? then [s.closing.value] else []) + s.input
  }

  ghost predicate AllReplies(s: Sys) {
    forall r :: r in s.replies ==> r.Reply? && Answers(s.puts, r.req, r.body)
  }

  ghost predicate TasksAnswer(s: Sys) {
    forall t :: t in s.tasks && t.reply.Some? ==> Answers(s.puts, t.req, t.reply.value)
  }

  /** What entered the channel: the replies, and at the end the close reply. */
  ghost predicate Flow(s: Sys) {
    && (CloseSent(s) ==> s.closing.Some?)
    && Sent(s) == [Capabilities(s.puts)] + s.replies + (if CloseSent(s) then [Reply(s.closing.value, Closed)] else [])
  }

  /** Every request read is answered, given up, or still has its goroutine, exactly once. */
  ghost predicate Count(s: Sys) {
    && (forall r :: r in s.replies ==> r.Reply?)
    && multiset(Requests(s.replies)) + multiset(s.dropped) + multiset(Working(s.tasks)) == multiset(s.read)
  }

  ghost predicate Inv(requests: seq<Request>, s: Sys) {
    Phases(s) && Intake(requests, s) && AllReplies(s) && TasksAnswer(s) && Flow(s) && Count(s)
  }

  lemma InitialInv(puts: bool, requests: seq<Request>)
    ensures Inv(requests, Initial(puts, requests))
  {
  }

  lemma StepKeepsPhases(requests: seq<Request>, s: Sys, e: Event)
    requires Phases(s) && Intake(requests, s) && Enabled(s, e)
    ensures Phases(Step(s, e)) && Intake(requests, Step(s, e))
  {
    if e == Read {
      assert s.input == [s.input[0]] + s.input[1..];
    }
  }

  lemma StepKeepsAnswers(s: Sys, e: Event)
    requires Phases(s) && AllReplies(s) && TasksAnswer(s) && Enabled(s, e)
    ensures AllReplies(Step(s, e)) && TasksAnswer(Step(s, e))
  {
    if e.Send? {
      assert s.tasks[e.task] in s.tasks;
    }
  }

  lemma StepKeepsFlow(s: Sys, e: Event)
    requires Phases(s) && Flow(s) && Enabled(s, e)
    ensures Flow(Step(s, e))
  {
    var s' := Step(s, e);
    if e.Send? {
      assert Sent(s') == Sent(s) + [s'.replies[|s.replies|]];
    } else if e == SendClose {
      assert Sent(s') == Sent(s) + [Reply(s.closing.value, Closed)];
    } else {
      assert Sent(s') == Sent(s);
    }
  }

  lemma StepKeepsCount(s: Sys, e: Event)
    requires Count(s) && Enabled(s, e)
    ensures Count(Step(s, e))
  {
    var s' := Step(s, e);
    if e == Read && s.input[0].cmd != Close {
      assert Working(s'.tasks) == Working(s.tasks) + [s.input[0]];
    } else if e.Send? {
      SendKeepsCount(s, e.task);
    } else if e.CancelTask? {
      CancelKeepsCount(s, e.task);
    } else {
      assert Working(s'.tasks) == Working(s.tasks);
    }
  }

  lemma WorkingWithout(ts: seq<Task>, k: nat)
    requires k < |ts|
    ensures multiset(Working(ts)) == multiset(Working(ts[..k] + ts[k + 1..])) + multiset{ts[k].req}
  {
    var w := Working(ts);
    assert w == w[..k] + [w[k]] + w[k + 1..];
    assert Working(ts[..k] + ts[k + 1..]) == w[..k] + w[k + 1..];
  }

  lemma SendKeepsCount(s: Sys, k: nat)
    requires Count(s) && Enabled(s, Send(k))
    ensures Count(Step(s, Send(k)))
  {
    hide Working;
    WorkingWithout(s.tasks, k);
    assert Requests(Step(s, Send(k)).replies) == Requests(s.replies) + [s.tasks[k].req];
  }

  lemma CancelKeepsCount(s: Sys, k: nat)
    requires Count(s) && Enabled(s, CancelTask(k))
    ensures Count(Step(s, CancelTask(k)))
  {
    hide Working, Requests;
    WorkingWithout(s.tasks, k);
  }

  /** Every step of every goroutine keeps the invariant. */
  lemma StepKeepsInv(requests: seq<Request>, s: Sys, e: Event)
    requires Inv(requests, s) && Enabled(s, e)
    ensures Inv(requests, Step(s, e))
  {
    hide Intake, AllReplies, TasksAnswer, Flow, Count, Step, Enabled;
    StepKeepsPhases(requests, s, e);
    StepKeepsAnswers(s, e);
    StepKeepsFlow(s, e);
    StepKeepsCount(s, e);
  }

  // ----- whole runs -----

  /** `trace` is a run of the server: its states in order, each a step from the last. */
  ghost predicate Run(puts: bool, requests: seq<Request>, trace: seq<Sys>) {
    && trace != [] && trace[0] == Initial(puts, requests)
    && forall i :: 0 < i < |trace| ==> Next(trace[i - 1], trace[i])
  }

  ghost predicate Next(s: Sys, s': Sys) {
    exists e :: Enabled(s, e) && s' == Step(s, e)
  }

  lemma {:induction false} RunKeepsInv(puts: bool, requests: seq<Request>, trace: seq<Sys>, i: nat)
    requires Run(puts, requests, trace) && i < |trace|
    ensures Inv(requests, trace[i]) && trace[i].puts == puts
  {
    hide Inv, Enabled, Step;
    if i == 0 {
      InitialInv(puts, requests);
    } else {
      RunKeepsInv(puts, requests, trace, i - 1);
      assert Next(trace[i - 1], trace[i]);
      var e :| Enabled(trace[i - 1], e) && trace[i] == Step(trace[i - 1], e);
      StepKeepsInv(requests, trace[i - 1], e);
    }
  }

  /** The transcript of a finished server: capabilities, one fitting reply per request
      before the close request, in some order, then the close reply. */
  ghost predicate Transcript(puts: bool, before: seq<Request>, closing: Request, output: seq<Response>) {
    exists replies: seq<Response> ::
      && (forall r :: r in replies ==> r.Reply? && Answers(puts, r.req, r.body))
      && output == [Capabilities(puts)] + replies + [Reply(closing, Closed)]
      && multiset(Requests(replies)) == multiset(before)
  }

  /** The position of the first close request. */
  ghost predicate ClosesAt(requests: seq<Request>, n: nat) {
    n < |requests| && requests[n].cmd == Close && forall i :: 0 <= i < n ==> requests[i].cmd != Close
  }

  /** Whatever the interleaving, a run that has returned has answered every request
      before the close request once, and the close request last. */
  lemma ReturnedMeansAnswered(puts: bool, requests: seq<Request>, trace: seq<Sys>, n: nat)
    requires Run(puts, requests, trace) && trace[|trace| - 1].reader == Returned
    requires ClosesAt(requests, n)
    ensures Transcript(puts, requests[..n], requests[n], trace[|trace| - 1].output)
  {
    var s := trace[|trace| - 1];
    RunKeepsInv(puts, requests, trace, |trace| - 1);
    CloseIsFirst(requests, s, n);
    assert Working(s.tasks) == [];
    assert Sent(s) == s.output;
  }

  lemma AmongRequests(replies: seq<Response>, before: seq<Request>)
    requires forall r :: r in replies ==> r.Reply?
    requires multiset(Requests(replies)) == multiset(before)
    ensures |replies| == |before| && forall r :: r in replies ==> r.req in before
  {
    assert |multiset(Requests(replies))| == |Requests(replies)| && |multiset(before)| == |before|;
    forall i | 0 <= i < |replies| ensures replies[i].req in before {
      assert Requests(replies)[i] in multiset(Requests(replies));
    }
  }

  /** What a client sees: an unknown command is refused, a put is refused exactly by a server
      that announced none, a get never, and only a close request is answered as closed. */
  lemma RepliesTell(puts: bool, requests: seq<Request>, trace: seq<Sys>, n: nat, k: nat)
    requires Run(puts, requests, trace) && trace[|trace| - 1].reader == Returned && ClosesAt(requests, n)
    requires k < |trace[|trace| - 1].output|
    ensures var r := trace[|trace| - 1].output[k];
      if k == 0 then r == Capabilities(puts)
      else
        && r.Reply? && r.req in requests[..n + 1]
        && (r.body == Closed <==> r.req.cmd == Close) && (r.req.cmd == Close <==> k == n + 1)
        && (r.req.cmd == Get ==> r.body.Result?)
        && (r.req.cmd == Put ==> if puts then r.body.Result? else r.body == Refused)
        && (r.req.cmd == Unknown ==> r.body == Refused)
  {
    hide Requests, Inv;
    ReturnedMeansAnswered(puts, requests, trace, n);
    var out, before := trace[|trace| - 1].output, requests[..n];
    var replies: seq<Response> :|
      && (forall r :: r in replies ==> r.Reply? && Answers(puts, r.req, r.body))
      && out == [Capabilities(puts)] + replies + [Reply(requests[n], Closed)]
      && multiset(Requests(replies)) == multiset(before);
    AmongRequests(replies, before);
    if 0 < k <= n {
      assert out[k] == replies[k - 1];
      assert out[k].req in before;
    }
    assert forall x :: x in before ==> x in requests[..n + 1];
  }

  lemma CloseIsFirst(requests: seq<Request>, s: Sys, n: nat)
    requires Intake(requests, s) && s.closing.Some? && s.closing.value.cmd == Close && ClosesAt(requests, n)
    ensures s.read == requests[..n] && s.closing.value == requests[n]
  {
    var k := |s.read|;
    assert requests[k] == s.closing.value;
    assert forall i :: 0 <= i < k ==> requests[i] == s.read[i] && s.read[i].cmd != Close;
    assert k == n;
    assert requests[..k] == s.read;
  }

  // ----- no deadlock, no endless run -----

  /** Weights under which each step of a task makes its remaining work smaller. */
  function TaskWork(ts: seq<Task>): nat {
    if ts == [] then 0
    else TaskWork(ts[..|ts| - 1]) + if ts[|ts| - 1].reply == None then 4 else 3
  }

  function ReaderWork(r: Reader): nat {
    match r
    case Reading => 6
    case Waiting => 5
    case Replying => 4
    case Finishing => 1
    case Joining => 1
    case Returned => 0
    case Abandoned => 0
  }

  function WriterWork(w: Writer): nat {
    match w case Idle => 1 case Writing(_) => 2 case Ended => 0
  }

  /** An upper bound on the steps left in a run. */
  function StepsLeft(s: Sys): nat {
    6 * |s.input| + TaskWork(s.tasks) + 2 * |s.channel| + WriterWork(s.writer) + ReaderWork(s.reader) + if s.closed then 0 else 1
  }

  lemma TaskWorkAppend(ts: seq<Task>, t: Task)
    ensures TaskWork(ts + [t]) == TaskWork(ts) + if t.reply == None then 4 else 3
  {
    assert (ts + [t])[..|ts|] == ts;
  }

  lemma {:induction false} TaskWorkUpdate(ts: seq<Task>, k: nat, t: Task)
    requires k < |ts| && ts[k].reply == None && t.reply.Some?
    ensures TaskWork(ts[k := t]) == TaskWork(ts) - 1
  {
    var n := |ts| - 1;
    if k < n {
      TaskWorkUpdate(ts[..n], k, t);
      assert ts[k := t][..n] == ts[..n][k := t];
    } else {
      assert ts[k := t][..n] == ts[..n];
    }
  }

  lemma {:induction false} TaskWorkRemove(ts: seq<Task>, k: nat)
    requires k < |ts|
    ensures TaskWork(ts[..k] + ts[k + 1..]) == TaskWork(ts) - if ts[k].reply == None then 4 else 3
  {
    var n := |ts| - 1;
    var rest := ts[..k] + ts[k + 1..];
    if k < n {
      TaskWorkRemove(ts[..n], k);
      assert rest[..|rest| - 1] == ts[..n][..k] + ts[..n][k + 1..];
    } else {
      assert rest == ts[..n];
    }
  }

  lemma StepReducesWork(s: Sys, e: Event)
    requires Enabled(s, e) && (e == CloseChannel ==> !s.closed)
    ensures StepsLeft(Step(s, e)) < StepsLeft(s)
  {
    hide TaskWork;
    match e
    case Read => TaskWorkAppend(s.tasks, Task(s.input[0], None));
    case Work(k, body) => TaskWorkUpdate(s.tasks, k, Task(s.tasks[k].req, Some(body)));
    case Send(k) => TaskWorkRemove(s.tasks, k);
    case CancelTask(k) => TaskWorkRemove(s.tasks, k);
    case _ =>
  }

  /** Runs cannot go on for ever. */
  lemma {:induction false} RunsAreBounded(puts: bool, requests: seq<Request>, trace: seq<Sys>, i: nat)
    requires Run(puts, requests, trace) && i < |trace|
    ensures i + StepsLeft(trace[i]) <= 6 * |requests| + 8
  {
    hide Inv, Enabled, Step;
    if i > 0 {
      RunsAreBounded(puts, requests, trace, i - 1);
      RunKeepsInv(puts, requests, trace, i - 1);
      assert Next(trace[i - 1], trace[i]);
      var e :| Enabled(trace[i - 1], e) && trace[i] == Step(trace[i - 1], e);
      OpenUntilClosed(requests, trace[i - 1], e);
      StepReducesWork(trace[i - 1], e);
    }
  }

  lemma OpenUntilClosed(requests: seq<Request>, s: Sys, e: Event)
    requires Inv(requests, s) && Enabled(s, e)
    ensures e == CloseChannel ==> !s.closed
  {
  }

  /** Before it has returned or abandoned its input the server can always move. */
  lemma NoDeadlock(requests: seq<Request>, s: Sys)
    requires Inv(requests, s) && s.reader !in {Returned, Abandoned}
    ensures exists e :: Enabled(s, e)
  {
    hide Flow, Count, AllReplies, TasksAnswer;
    if s.reader == Reading {
      assert Enabled(s, if s.input != [] then Read else EndOfInput);
    } else if s.writer.Writing? {
      assert Enabled(s, Write);
    } else if s.writer == Ended {
      assert Enabled(s, Join);
    } else if s.channel != [] {
      assert Enabled(s, Take);
    } else if s.reader == Waiting && s.tasks != [] {
      var t := s.tasks[0];
      var body := if t.req.cmd == Close then Closed else if Refuses(s.puts, t.req) then Refused else Result(0);
      assert Enabled(s, if t.reply == None then Work(0, body) else Send(0));
    } else {
      assert Enabled(s, match s.reader case Waiting => AllHandled case Replying => SendClose case Finishing => CloseChannel case _ => EndWriter);
    }
  }

  /** The main theorem: with a close request in the input, every run can be carried on
      until the server returns, takes a bounded number of steps, and then has answered
      every earlier request exactly once and the close request last. */
  lemma EveryRunEndsAnswered(puts: bool, requests: seq<Request>, trace: seq<Sys>, n: nat)
    requires Run(puts, requests, trace) && ClosesAt(requests, n)
    ensures |trace| <= 6 * |requests| + 9
    ensures var s := trace[|trace| - 1];
      if s.reader == Returned then Transcript(puts, requests[..n], requests[n], s.output)
      else exists s' :: Next(s, s') && Run(puts, requests, trace + [s'])
  {
    hide Inv, Enabled, Step, Transcript;
    var s := trace[|trace| - 1];
    RunsAreBounded(puts, requests, trace, |trace| - 1);
    if s.reader == Returned {
      ReturnedMeansAnswered(puts, requests, trace, n);
    } else {
      RunKeepsInv(puts, requests, trace, |trace| - 1);
      NotAbandoned(puts, requests, trace, |trace| - 1, n);
      NoDeadlock(requests, s);
      var e :| Enabled(s, e);
      assert Next(s, Step(s, e));
      assert Run(puts, requests, trace + [Step(s, e)]);
    }
  }

  lemma {:induction false} NotAbandoned(puts: bool, requests: seq<Request>, trace: seq<Sys>, i: nat, n: nat)
    requires Run(puts, requests, trace) && ClosesAt(requests, n) && i < |trace|
    ensures trace[i].reader != Abandoned
  {
    hide Inv;
    if i > 0 {
      NotAbandoned(puts, requests, trace, i - 1, n);
      RunKeepsInv(puts, requests, trace, i - 1);
      assert Next(trace[i - 1], trace[i]);
      var e :| Enabled(trace[i - 1], e) && trace[i] == Step(trace[i - 1], e);
      if e == EndOfInput {
        CloseStillToCome(requests, trace[i - 1], n);
      }
    }
  }

  lemma CloseStillToCome(requests: seq<Request>, s: Sys, n: nat)
    requires Inv(requests, s) && s.reader == Reading && ClosesAt(requests, n)
    ensures s.input != []
  {
    assert forall i :: 0 <= i < |s.read| ==> requests[i] == s.read[i] && s.read[i].cmd != Close;
  }

  // ----- the end of the input -----

  /** No goroutine can move. */
  ghost predicate Final(s: Sys) {
    forall e :: !Enabled(s, e)
  }

  /** `trace` is a run that ends in `s` and can go no further. */
  ghost predicate Ends(puts: bool, requests: seq<Request>, trace: seq<Sys>, s: Sys) {
    Run(puts, requests, trace) && s == trace[|trace| - 1] && Final(s)
  }

  ghost predicate NoClose(requests: seq<Request>) {
    forall r :: r in requests ==> r.cmd != Close
  }

  /** One fitting reply per request up to the close request, if there is one, in some
      order. */
  ghost predicate FullyAnswered(puts: bool, requests: seq<Request>, output: seq<Response>) {
    || (exists n: nat :: ClosesAt(requests, n) && Transcript(puts, requests[..n], requests[n], output))
    || (NoClose(requests) && exists replies: seq<Response> ::
          && (forall r :: r in replies ==> r.Reply? && Answers(puts, r.req, r.body))
          && output == [Capabilities(puts)] + replies && multiset(Requests(replies)) == multiset(requests))
  }

  /** However the goroutines interleave, a run that can go no further has answered. */
  ghost predicate AlwaysAnswered(puts: bool, requests: seq<Request>) {
    forall trace, s :: Ends(puts, requests, trace, s) ==> FullyAnswered(puts, requests, s.output)
  }

  lemma SomeCloseIsFirst(requests: seq<Request>) returns (n: nat)
    requires !NoClose(requests)
    ensures ClosesAt(requests, n)
  {
    var m :| 0 <= m < |requests| && requests[m].cmd == Close;
    n := 0;
    while requests[n].cmd != Close
      invariant n <= m && forall i :: 0 <= i < n ==> requests[i].cmd != Close
      decreases m - n
    {
      n := n + 1;
    }
  }

  lemma ExtendRun(puts: bool, requests: seq<Request>, trace: seq<Sys>, e: Event)
    requires Run(puts, requests, trace) && Enabled(trace[|trace| - 1], e)
    ensures Run(puts, requests, trace + [Step(trace[|trace| - 1], e)])
  {
    hide Enabled, Step;
    assert Next(trace[|trace| - 1], Step(trace[|trace| - 1], e));
  }

  /** Reading goes on to the end while every handler is still at work. */
  lemma {:induction false} ReadEverything(puts: bool, requests: seq<Request>, k: nat) returns (trace: seq<Sys>)
    requires NoClose(requests) && k <= |requests|
    ensures Run(puts, requests, trace)
    ensures var s := trace[|trace| - 1];
      s.input == requests[k..] && s.reader == Reading && s.writer == Idle && s.output == [Capabilities(puts)]
  {
    if k == 0 {
      trace := [Initial(puts, requests)];
    } else {
      trace := ReadEverything(puts, requests, k - 1);
      assert requests[k - 1] in requests;
      ExtendRun(puts, requests, trace, Read);
      trace := trace + [Step(trace[|trace| - 1], Read)];
    }
  }

  /** After the cancellation every handler and the writer may stop where they are. */
  lemma {:induction false} CancelEverything(puts: bool, requests: seq<Request>, trace0: seq<Sys>) returns (trace: seq<Sys>)
    requires Run(puts, requests, trace0)
    requires trace0[|trace0| - 1].reader == Abandoned && trace0[|trace0| - 1].writer == Idle
    ensures Run(puts, requests, trace) && Final(trace[|trace| - 1])
    ensures trace[|trace| - 1].output == trace0[|trace0| - 1].output
    decreases |trace0[|trace0| - 1].tasks|
  {
    var s := trace0[|trace0| - 1];
    if s.tasks != [] {
      ExtendRun(puts, requests, trace0, CancelTask(0));
      trace := CancelEverything(puts, requests, trace0 + [Step(s, CancelTask(0))]);
    } else {
      ExtendRun(puts, requests, trace0, CancelWriter);
      trace := trace0 + [Step(s, CancelWriter)];
    }
  }

  /** Without a close request a run may end with nothing answered at all. */
  lemma EndOfInputMayDropAll(puts: bool, requests: seq<Request>) returns (trace: seq<Sys>)
    requires NoClose(requests)
    ensures Run(puts, requests, trace) && Final(trace[|trace| - 1])
    ensures trace[|trace| - 1].output == [Capabilities(puts)]
  {
    trace := ReadEverything(puts, requests, |requests|);
    ExtendRun(puts, requests, trace, EndOfInput);
    trace := CancelEverything(puts, requests, trace + [Step(trace[|trace| - 1], EndOfInput)]);
  }

  lemma NothingToAnswer(puts: bool, trace: seq<Sys>, s: Sys)
    requires Ends(puts, [], trace, s)
    ensures s.output == [Capabilities(puts)]
  {
    hide Step;
    RunKeepsInv(puts, [], trace, |trace| - 1);
    assert s.read == [] && multiset(Requests(s.replies)) == multiset{};
    assert |Requests(s.replies)| == |s.replies|;
    assert s.closing.None?;
    assert Sent(s) == [Capabilities(puts)];
  }

  /** The exact reach of the guarantee: every run ends with every request answered exactly
      when the client asks for nothing or sends a close request. */
  lemma AnsweredIffClosed(puts: bool, requests: seq<Request>)
    ensures AlwaysAnswered(puts, requests) <==> requests == [] || exists n: nat :: ClosesAt(requests, n)
  {
    hide Step, Enabled, Inv, Transcript;
    if requests == [] {
      forall trace, s | Ends(puts, requests, trace, s) ensures FullyAnswered(puts, requests, s.output) {
        NothingToAnswer(puts, trace, s);
        assert [Capabilities(puts)] == [Capabilities(puts)] + [] && Requests([]) == requests;
      }
    } else if n: nat :| ClosesAt(requests, n) {
      forall trace, s | Ends(puts, requests, trace, s) ensures FullyAnswered(puts, requests, s.output) {
        FinalIsReturned(puts, requests, trace, s, n);
        ReturnedMeansAnswered(puts, requests, trace, n);
      }
    } else {
      if !NoClose(requests) { var n := SomeCloseIsFirst(requests); }
      var trace := EndOfInputMayDropAll(puts, requests);
      OnlyCapabilities(puts, requests);
      assert Ends(puts, requests, trace, trace[|trace| - 1]);
    }
  }

  lemma FinalIsReturned(puts: bool, requests: seq<Request>, trace: seq<Sys>, s: Sys, n: nat)
    requires Ends(puts, requests, trace, s) && ClosesAt(requests, n)
    ensures s.reader == Returned
  {
    hide Step, Enabled, Inv;
    RunKeepsInv(puts, requests, trace, |trace| - 1);
    NotAbandoned(puts, requests, trace, |trace| - 1, n);
    if s.reader != Returned { NoDeadlock(requests, s); }
  }

  lemma OnlyCapabilities(puts: bool, requests: seq<Request>)
    requires requests != [] && !(exists n: nat :: ClosesAt(requests, n))
    ensures !FullyAnswered(puts, requests, [Capabilities(puts)])
  {
    forall replies: seq<Response> | [Capabilities(puts)] == [Capabilities(puts)] + replies ensures replies == [] {
      assert |replies| == 0;
    }
    assert requests[0] in multiset(requests);
  }
}
