/** When the storage front end may close its backend: clients that use it, release it and
    close it at the same time, one critical section a step. */
module FrontendGate {

  /** What one client is doing; `Closer` has announced a close and waits for the users to
      leave, `Finisher` has seen them gone. */
  datatype Client = Idle | User | Closer | Finisher

  /** `inFlight` is the wait group's count; `down` says the backend has been closed. */
  datatype Gate = Gate(closing: bool, inFlight: int, down: bool, clients: seq<Client>)

  datatype Event = TryUse(k: nat) | Release(k: nat) | BeginClose(k: nat) | PassWait(k: nat) | Finish(k: nat)

  function Initial(n: nat): Gate {
    Gate(false, 0, false, seq(n, i => Idle))
  }

  predicate Enabled(g: Gate, e: Event) {
    && e.k < |g.clients|
    && match e
      case TryUse(k) => g.clients[k] == Idle
      case Release(k) => g.clients[k] == User
      case BeginClose(k) => g.clients[k] == Idle
      case PassWait(k) => g.clients[k] == Closer && g.inFlight == 0
      case Finish(k) => g.clients[k] == Finisher
  }

  /** An attempt to use a closing front end is refused and leaves the client idle. */
  function Step(g: Gate, e: Event): Gate
    requires Enabled(g, e)
  {
    match e
    case TryUse(k) => if g.closing then g else g.(inFlight := g.inFlight + 1, clients := g.clients[k := User])
    case Release(k) => g.(inFlight := g.inFlight - 1, clients := g.clients[k := Idle])
    case BeginClose(k) => g.(closing := true, clients := g.clients[k := Closer])
    case PassWait(k) => g.(clients := g.clients[k := Finisher])
    case Finish(k) => g.(down := true, clients := g.clients[k := Idle])
  }

  function Users(cs: seq<Client>): nat {
    if cs == [] then 0 else Users(cs[..|cs| - 1]) + if cs[|cs| - 1] == User then 1 else 0
  }

  lemma {:induction false} UsersUpdated(cs: seq<Client>, k: nat, c: Client)
    requires k < |cs|
    ensures Users(cs[k := c]) == Users(cs) - (if cs[k] == User then 1 else 0) + (if c == User then 1 else 0)
  {
    var n := |cs| - 1;
    if k < n {
      UsersUpdated(cs[..n], k, c);
      assert cs[k := c][..n] == cs[..n][k := c];
    } else {
      assert cs[k := c][..n] == cs[..n];
    }
  }

  lemma {:induction false} UserCounts(cs: seq<Client>, k: nat)
    requires k < |cs| && cs[k] == User
    ensures Users(cs) > 0
  {
    if k < |cs| - 1 { UserCounts(cs[..|cs| - 1], k); }
  }

  ghost predicate Inv(g: Gate) {
    && g.inFlight == Users(g.clients)
    && (forall i :: 0 <= i < |g.clients| && g.clients[i] in {Closer, Finisher} ==> g.closing)
    && (forall i :: 0 <= i < |g.clients| && g.clients[i] == Finisher ==> g.inFlight == 0)
    && (g.down ==> g.closing && g.inFlight == 0)
  }

  lemma StepKeepsInv(g: Gate, e: Event)
    requires Inv(g) && Enabled(g, e)
    ensures Inv(Step(g, e))
    ensures g.closing ==> Step(g, e).closing && Step(g, e).inFlight <= g.inFlight
  {
    UsersUpdated(g.clients, e.k, match e case TryUse(_) => User case BeginClose(_) => Closer case PassWait(_) => Finisher case _ => Idle);
    if e.Release? { UserCounts(g.clients, e.k); }
  }

  ghost predicate Run(n: nat, trace: seq<Gate>) {
    && trace != [] && trace[0] == Initial(n)
    && forall i :: 0 < i < |trace| ==> Next(trace[i - 1], trace[i])
  }

  ghost predicate Next(g: Gate, g': Gate) {
    exists e :: Enabled(g, e) && g' == Step(g, e)
  }

  lemma {:induction false} NoUsers(n: nat)
    ensures Users(seq(n, i => Idle)) == 0
  {
    if n > 0 {
      NoUsers(n - 1);
      assert seq(n, i => Idle)[..n - 1] == seq(n - 1, i => Idle);
    }
  }

  lemma {:induction false} RunKeepsInv(n: nat, trace: seq<Gate>, i: nat)
    requires Run(n, trace) && i < |trace|
    ensures Inv(trace[i])
  {
    if i == 0 {
      NoUsers(n);
    } else {
      RunKeepsInv(n, trace, i - 1);
      assert Next(trace[i - 1], trace[i]);
      var e :| Enabled(trace[i - 1], e) && trace[i] == Step(trace[i - 1], e);
      StepKeepsInv(trace[i - 1], e);
    }
  }

  /** In every interleaving the backend is closed only when nobody uses it, so no user ever
      meets a closed backend. */
  lemma UsersMeetOpenBackend(n: nat, trace: seq<Gate>, i: nat, k: nat)
    requires Run(n, trace) && i < |trace| && k < |trace[i].clients| && trace[i].clients[k] == User
    ensures !trace[i].down && trace[i].inFlight > 0
  {
    RunKeepsInv(n, trace, i);
    UserCounts(trace[i].clients, k);
  }

  /** Once a close has begun, the number of users never rises again. */
  lemma {:induction false} ClosingDrains(n: nat, trace: seq<Gate>, i: nat, j: nat)
    requires Run(n, trace) && i <= j < |trace| && trace[i].closing
    ensures trace[j].closing && trace[j].inFlight <= trace[i].inFlight
  {
    if i < j {
      ClosingDrains(n, trace, i, j - 1);
      RunKeepsInv(n, trace, j - 1);
      assert Next(trace[j - 1], trace[j]);
      var e :| Enabled(trace[j - 1], e) && trace[j] == Step(trace[j - 1], e);
      StepKeepsInv(trace[j - 1], e);
    }
  }

  /** Whoever asks to use the front end is let in exactly while nobody has begun to close it. */
  lemma AdmittedIffOpen(g: Gate, k: nat)
    requires Enabled(g, TryUse(k))
    ensures Step(g, TryUse(k)).clients[k] == User <==> !g.closing
    ensures g.closing ==> Step(g, TryUse(k)) == g
  {
  }

  lemma {:induction false} SomeUser(cs: seq<Client>) returns (k: nat)
    requires Users(cs) > 0
    ensures k < |cs| && cs[k] == User
  {
    k := |cs| - 1;
    if cs[k] != User { k := SomeUser(cs[..k]); }
  }

  /** A closer is never stuck: once the users that are there have left, it closes the backend,
      and whoever comes meanwhile is turned away. */
  lemma {:induction false} CloserFinishes(g: Gate, k: nat) returns (trace: seq<Gate>)
    requires Inv(g) && k < |g.clients| && g.clients[k] == Closer
    ensures trace != [] && trace[0] == g && trace[|trace| - 1].down
    ensures forall i :: 0 < i < |trace| ==> Next(trace[i - 1], trace[i])
    ensures |trace| == g.inFlight + 3
    decreases g.inFlight
  {
    if g.inFlight > 0 {
      var j := SomeUser(g.clients);
      StepKeepsInv(g, Release(j));
      assert Next(g, Step(g, Release(j)));
      var rest := CloserFinishes(Step(g, Release(j)), k);
      trace := [g] + rest;
    } else {
      var g1 := Step(g, PassWait(k));
      assert Next(g, g1);
      assert Enabled(g1, Finish(k)) && Next(g1, Step(g1, Finish(k)));
      trace := [g, g1, Step(g1, Finish(k))];
    }
  }
}
