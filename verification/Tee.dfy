/** Writing one body to two storage layers at once. */
module TeedWrite {
  // The local writer reads through a tee whose copy goes down a synchronous pipe to the
  // remote writer. This is a state machine over the steps of both goroutines; either writer
  // may stop early and the body may fail.

  import opened Decimal

  /** Inside the layer's own write, draining what that left unread, or through. */
  datatype Side = Writing | Draining | Through

  /** Why a layer's write stopped reading: it saw the end of its input, or gave up. */
  datatype Stop = AtEnd | Early

  /** `taken` are the bytes read from the body so far, `source` those left. A pipe write in
      progress offers `pending`, the part of `chunk` the remote side has not received.
      `localSeen` and `remoteSeen` are the bytes a side was given, `localOwn` and
      `remoteOwn` how much of that its layer's write had seen when it stopped. */
  datatype Sys = Sys(
    source: Bytes, taken: Bytes, failed: bool,
    inWrite: bool, chunk: Bytes, pending: Bytes, pipeClosed: bool,
    local: Side, localSeen: Bytes, localStop: Stop, localOwn: Bytes,
    remote: Side, remoteSeen: Bytes, remoteStop: Stop, remoteOwn: Bytes,
    returned: bool)

  datatype Event =
    | Read(n: nat) | BodyFails | Transfer(n: nat) | WriteDone
    | LocalStops(why: Stop) | LocalCloses
    | RemoteStops(why: Stop) | RemoteEnds
    | Return

  function Initial(body: Bytes): Sys {
    Sys(body, [], false, false, [], [], false, Writing, [], Early, [], Writing, [], Early, [], false)
  }

  /** The pipe reader is at its end once the writer has closed and nothing is offered. */
  predicate PipeAtEnd(s: Sys) {
    s.pipeClosed && s.pending == []
  }

  predicate Enabled(s: Sys, e: Event) {
    match e
    case Read(n) => s.local != Through && !s.inWrite && 0 < n <= |s.source|
    case BodyFails => s.local != Through && !s.inWrite && !s.failed
    case Transfer(n) => s.remote != Through && 0 < n <= |s.pending|
    case WriteDone => s.inWrite && s.pending == []
    case LocalStops(why) => s.local == Writing && !s.inWrite && (why == AtEnd ==> s.source == [])
    case LocalCloses => s.local == Draining && !s.inWrite && s.source == []
    case RemoteStops(why) => s.remote == Writing && (why == AtEnd ==> PipeAtEnd(s))
    case RemoteEnds => s.remote == Draining && PipeAtEnd(s)
    case Return => s.local == Through && s.remote == Through && !s.returned
  }

  function Step(s: Sys, e: Event): Sys
    requires Enabled(s, e)
  {
    match e
    case Read(n) =>
      s.(source := s.source[n..], taken := s.taken + s.source[..n], inWrite := true, chunk := s.source[..n], pending := s.source[..n])
    case BodyFails => s.(source := [], failed := true)
    case Transfer(n) => s.(remoteSeen := s.remoteSeen + s.pending[..n], pending := s.pending[n..])
    case WriteDone => s.(inWrite := false, localSeen := s.localSeen + s.chunk, chunk := [])
    case LocalStops(why) => s.(local := Draining, localStop := why, localOwn := s.localSeen)
    case LocalCloses => s.(local := Through, pipeClosed := true)
    case RemoteStops(why) => s.(remote := Draining, remoteStop := why, remoteOwn := s.remoteSeen)
    case RemoteEnds => s.(remote := Through)
    case Return => s.(returned := true)
  }

  ghost predicate Inv(body: Bytes, s: Sys) {
    && s.taken <= body && (!s.failed ==> s.taken + s.source == body)
    && s.remoteSeen + s.pending == s.taken
    && s.localSeen + s.chunk == s.taken
    && (!s.inWrite ==> s.chunk == [] && s.pending == [])
    && (s.failed ==> s.source == [])
    && (s.pipeClosed <==> s.local == Through)
    && (s.local == Through ==> s.source == [] && !s.inWrite)
    && (s.remote == Through ==> s.pipeClosed)
    && (s.returned ==> s.remote == Through)
    && (s.local != Writing ==> s.localOwn <= s.taken)
    && (s.local != Writing && s.localStop == AtEnd ==> s.source == [] && s.localOwn == s.taken)
    && (s.remote != Writing ==> s.remoteOwn <= s.taken)
    && (s.remote != Writing && s.remoteStop == AtEnd ==> s.pipeClosed && s.remoteOwn == s.taken)
  }

  lemma StepKeepsInv(body: Bytes, s: Sys, e: Event)
    requires Inv(body, s) && Enabled(s, e)
    ensures Inv(body, Step(s, e))
  {
    match e
    case Read(n) =>
      assert s.source == s.source[..n] + s.source[n..];
      if !s.failed {
        assert s.taken + s.source[..n] + s.source[n..] == s.taken + s.source == body;
        assert s.taken + s.source[..n] <= body;
      }
    case Transfer(n) => assert s.remoteSeen + s.pending[..n] + s.pending[n..] == s.remoteSeen + s.pending;
    case _ =>
  }

  ghost predicate Next(s: Sys, s': Sys) {
    exists e :: Enabled(s, e) && s' == Step(s, e)
  }

  ghost predicate Run(body: Bytes, trace: seq<Sys>) {
    && trace != [] && trace[0] == Initial(body)
    && forall i :: 0 < i < |trace| ==> Next(trace[i - 1], trace[i])
  }

  function SideWork(side: Side): nat {
    match side case Writing => 2 case Draining => 1 case Through => 0
  }

  /** An upper bound on the steps left. */
  function StepsLeft(s: Sys): nat {
    3 * |s.source| + |s.pending| + (if s.inWrite then 1 else 0)
    + SideWork(s.local) + SideWork(s.remote) + (if s.failed then 0 else 1) + if s.returned then 0 else 1
  }

  lemma StepReducesWork(s: Sys, e: Event)
    requires Enabled(s, e)
    ensures StepsLeft(Step(s, e)) < StepsLeft(s)
  {
  }

  lemma InitialInv(body: Bytes)
    ensures Inv(body, Initial(body)) && StepsLeft(Initial(body)) == 3 * |body| + 6
  {
  }

  lemma {:induction false} RunKeepsInv(body: Bytes, trace: seq<Sys>, i: nat)
    requires Run(body, trace) && i < |trace|
    ensures Inv(body, trace[i]) && i + StepsLeft(trace[i]) <= 3 * |body| + 6
  {
    hide Inv, Enabled, Step, StepsLeft;
    if i == 0 {
      InitialInv(body);
    } else {
      RunKeepsInv(body, trace, i - 1);
      assert Next(trace[i - 1], trace[i]);
      var e :| Enabled(trace[i - 1], e) && trace[i] == Step(trace[i - 1], e);
      StepKeepsInv(body, trace[i - 1], e);
      StepReducesWork(trace[i - 1], e);
    }
  }

  /** A step that is possible without either layer giving up or the body failing. */
  predicate Willing(e: Event) {
    e != LocalStops(Early) && e != RemoteStops(Early) && e != BodyFails
  }

  lemma NoDeadlock(body: Bytes, s: Sys)
    requires Inv(body, s) && !s.returned
    ensures exists e :: Enabled(s, e) && Willing(e)
  {
    var e :=
      if s.inWrite then (if s.pending != [] then Transfer(1) else WriteDone)
      else if s.local != Through then
        (if s.source != [] then Read(1) else if s.local == Writing then LocalStops(AtEnd) else LocalCloses)
      else match s.remote case Writing => RemoteStops(AtEnd) case Draining => RemoteEnds case Through => Return;
    assert Enabled(s, e) && Willing(e);
  }

  /** Once the write returns, the whole body has been read unless it failed; the remote
      side was given exactly the bytes read, and so was the local side; and a layer whose
      write read to the end saw all of them, whatever the other layer did. */
  ghost predicate Delivered(body: Bytes, s: Sys) {
    && s.source == [] && s.taken <= body && (!s.failed ==> s.taken == body)
    && s.remoteSeen == s.taken && s.localSeen == s.taken
    && (s.localStop == AtEnd ==> s.localOwn == s.taken)
    && (s.remoteStop == AtEnd ==> s.remoteOwn == s.taken)
  }

  /** The main theorem: no interleaving deadlocks or runs for ever, at every moment the
      remote side has seen a prefix of what was read, and the end is as promised. */
  lemma EveryWriteDelivers(body: Bytes, trace: seq<Sys>)
    requires Run(body, trace)
    ensures |trace| <= 3 * |body| + 7
    ensures forall i :: 0 <= i < |trace| ==> trace[i].remoteSeen <= trace[i].taken <= body
    ensures var s := trace[|trace| - 1];
      if s.returned then Delivered(body, s) else exists s' :: Next(s, s') && Run(body, trace + [s'])
  {
    hide Enabled, Step;
    forall i | 0 <= i < |trace| ensures trace[i].remoteSeen <= trace[i].taken <= body {
      RunKeepsInv(body, trace, i);
    }
    var s := trace[|trace| - 1];
    RunKeepsInv(body, trace, |trace| - 1);
    if !s.returned {
      NoDeadlock(body, s);
      var e :| Enabled(s, e) && Willing(e);
      assert Next(s, Step(s, e));
      assert Run(body, trace + [Step(s, e)]);
    }
  }

  // ----- what can happen -----

  function Last(trace: seq<Sys>): Sys
    requires trace != []
  {
    trace[|trace| - 1]
  }

  lemma Then(body: Bytes, trace0: seq<Sys>, e: Event) returns (trace: seq<Sys>)
    requires Run(body, trace0) && Enabled(Last(trace0), e)
    ensures Run(body, trace) && trace != [] && Last(trace) == Step(Last(trace0), e)
  {
    hide Enabled, Step;
    assert Next(Last(trace0), Step(Last(trace0), e));
    trace := trace0 + [Step(Last(trace0), e)];
  }

  /** The body may fail after any number of bytes, either layer may give up before it has
      seen anything, and still the write returns and both sides are given all that was read. */
  lemma EveryOutcomeHappens(body: Bytes, n: nat, localEarly: bool, remoteEarly: bool) returns (trace: seq<Sys>)
    requires n <= |body|
    ensures Run(body, trace)
    ensures var s := Last(trace);
      && s.returned && s.failed && s.taken == body[..n]
      && s.localStop == (if localEarly then Early else AtEnd) && s.localOwn == (if localEarly then [] else body[..n])
      && s.remoteStop == (if remoteEarly then Early else AtEnd) && s.remoteOwn == (if remoteEarly then [] else body[..n])
  {
    trace := CopyFront(body, n, localEarly, remoteEarly);
    trace := Finish(body, trace, localEarly, remoteEarly);
  }

  /** The first `n` bytes have reached both sides; a side that gives up early has done so. */
  function Copied(body: Bytes, n: nat, localEarly: bool, remoteEarly: bool): Sys
    requires n <= |body|
  {
    Sys(body[n..], body[..n], false, false, [], [], false,
        if localEarly then Draining else Writing, body[..n], Early, [],
        if remoteEarly then Draining else Writing, body[..n], Early, [], false)
  }

  lemma CopyFront(body: Bytes, n: nat, localEarly: bool, remoteEarly: bool) returns (trace: seq<Sys>)
    requires n <= |body|
    ensures Run(body, trace) && trace != [] && Last(trace) == Copied(body, n, localEarly, remoteEarly)
  {
    hide Run;
    trace := [Initial(body)];
    StartOfRun(body);
    assert body[0..] == body && body[..0] == [];
    if localEarly { trace := Then(body, trace, LocalStops(Early)); }
    if remoteEarly { trace := Then(body, trace, RemoteStops(Early)); }
    assert Last(trace) == Copied(body, 0, localEarly, remoteEarly);
    if n > 0 { trace := CopyOn(body, trace, n, localEarly, remoteEarly); }
  }

  lemma CopyOn(body: Bytes, trace0: seq<Sys>, n: nat, localEarly: bool, remoteEarly: bool) returns (trace: seq<Sys>)
    requires 0 < n <= |body| && Run(body, trace0) && trace0 != [] && Last(trace0) == Copied(body, 0, localEarly, remoteEarly)
    ensures Run(body, trace) && trace != [] && Last(trace) == Copied(body, n, localEarly, remoteEarly)
  {
    hide Run;
    assert [] + body[..n] == body[..n];
    trace := Then(body, trace0, Read(n));
    trace := Then(body, trace, Transfer(n));
    trace := Then(body, trace, WriteDone);
  }

  lemma Finish(body: Bytes, trace0: seq<Sys>, localEarly: bool, remoteEarly: bool) returns (trace: seq<Sys>)
    requires Run(body, trace0) && trace0 != [] && exists n: nat :: n <= |body| && Last(trace0) == Copied(body, n, localEarly, remoteEarly)
    ensures Run(body, trace)
    ensures var s, s0 := Last(trace), Last(trace0);
      && s.returned && s.failed && s.taken == s0.taken
      && s.localStop == (if localEarly then Early else AtEnd) && s.localOwn == (if localEarly then [] else s0.taken)
      && s.remoteStop == (if remoteEarly then Early else AtEnd) && s.remoteOwn == (if remoteEarly then [] else s0.taken)
  {
    hide Run;
    trace := Then(body, trace0, BodyFails);
    if !localEarly { trace := Then(body, trace, LocalStops(AtEnd)); }
    trace := Then(body, trace, LocalCloses);
    if !remoteEarly { trace := Then(body, trace, RemoteStops(AtEnd)); }
    trace := Then(body, trace, RemoteEnds);
    trace := Then(body, trace, Return);
  }

  lemma StartOfRun(body: Bytes)
    ensures Run(body, [Initial(body)])
  {
  }
}
