/** The process manager's loop for one child. */
module ManagedChild {
  // Init steps run one after another, then the main process, with stop, kill and restart.
  // A child and its surroundings form a state machine whose events are commands, timers
  // and process exits.

  import opened Wrappers

  datatype ChildState = Stopped | InitRunning | InitError | Running | Stopping | Done | Failed

  datatype ExecState = NotStarted | ExecRunning | ExecStopping | ExecEnded

  datatype ExecStatus = ExecStatus(state: ExecState, startErr: bool, pid: nat, exitCode: int)

  /** A child definition, reduced to what steers the loop. */
  datatype Def = Def(inits: nat, oneShot: bool, noRestart: bool)

  datatype Command = Ping | Start | Stop | Delete

  /** What happened, in order: accepted commands, and what became of executions. A signal
      that is forced kills, any other asks to terminate. */
  datatype Entry =
    | StartAccepted
    | StopAccepted
    | Started(idx: int, pid: nat)
    | StartFailed(idx: int)
    | Signalled(idx: int, forced: bool)
    | Ended(idx: int, code: int)

  /** One turn of the loop, or the exit of a process. `started` is the outcome of the
      process start the turn may attempt: a process id, or a failure. */
  datatype Event =
    | Cmd(cmd: Command, started: Option<nat>)
    | KillFires
    | RestartFires(started: Option<nat>)
    | ExitNotice(started: Option<nat>)
    | ProcessExits(pid: nat, code: int)

  /** `execs` holds the init statuses followed by the main status. `live` and `exits` are
      the running processes and the exit notices not yet received; a timer is armed from
      when it is set until it fires. */
  datatype Sys = Sys(
    state: ChildState, execs: seq<ExecStatus>, curExec: int, curProc: Option<nat>,
    killArmed: bool, restartArmed: bool, deleted: bool,
    panicked: bool, odd: bool,
    live: set<nat>, exits: seq<int>, log: seq<Entry>)

  predicate Shaped(def: Def, s: Sys) {
    |s.execs| == def.inits + 1
  }

  const NOT_STARTED := ExecStatus(NotStarted, false, 0, 0)

  function Initial(def: Def): Sys {
    Sys(Stopped, seq(def.inits + 1, i => NOT_STARTED), -1, None, false, false, false, false, false, {}, [], [])
  }

  // ----- one turn -----

  /** The status slot of the current execution. */
  function Slot(def: Def, curExec: int): int {
    if curExec < def.inits then curExec else def.inits
  }

  function StartCurrent(def: Def, s: Sys, started: Option<nat>): (r: Sys)
    requires Shaped(def, s)
    ensures Shaped(def, r)
  {
    if s.curExec < 0 then s.(panicked := true)
    else
      var init := s.curExec < def.inits;
      match started
      case Some(p) =>
        s.(curProc := Some(p), state := if init then InitRunning else Running,
           execs := s.execs[Slot(def, s.curExec) := ExecStatus(ExecRunning, false, p, 0)],
           live := s.live + {p}, log := s.log + [Started(s.curExec, p)])
      case None =>
        s.(curProc := None, state := if init then InitError else Failed,
           execs := s.execs[Slot(def, s.curExec) := ExecStatus(NotStarted, true, 0, 0)],
           log := s.log + [StartFailed(s.curExec)])
  }

  function MarkStopping(def: Def, s: Sys, forced: bool): (r: Sys)
    requires Shaped(def, s)
    ensures Shaped(def, r)
  {
    if s.curExec < 0 then s.(panicked := true)
    else
      var k := Slot(def, s.curExec);
      s.(state := Stopping, execs := s.execs[k := s.execs[k].(state := ExecStopping)], log := s.log + [Signalled(s.curExec, forced)])
  }

  function OnCommand(def: Def, s: Sys, cmd: Command, started: Option<nat>): (r: Sys)
    requires Shaped(def, s)
    ensures Shaped(def, r)
  {
    match cmd
    case Ping => s
    case Start =>
      if s.state in {Stopped, Failed, InitError, Done}
      then StartCurrent(def, s.(curExec := 0, log := s.log + [StartAccepted]), started)
      else s
    case Stop =>
      if s.curProc.Some? then MarkStopping(def, s, false).(killArmed := true)
      else if s.state in {Failed, InitError} then s.(curExec := 0, state := Stopped, log := s.log + [StopAccepted])
      else if s.state in {Stopped, Done} then s
      else s.(odd := true)
    case Delete => if s.state in {Stopped, Done} then s.(deleted := true) else s
  }

  /** The state after the main process ends with `code`. */
  function AfterMain(def: Def, code: int): ChildState {
    if def.oneShot then (if code == 0 then Done else Failed)
    else if code == 0 && def.noRestart then Stopped
    else Failed
  }

  /** Takes the exit notice: the current execution has ended and no process is left. */
  function Reap(def: Def, s: Sys): (r: Sys)
    requires Shaped(def, s) && s.exits != [] && s.curExec >= 0
    ensures Shaped(def, r)
  {
    var code, k := s.exits[0], Slot(def, s.curExec);
    s.(exits := s.exits[1..], curProc := None, log := s.log + [Ended(s.curExec, code)],
       execs := s.execs[k := s.execs[k].(state := ExecEnded, pid := 0, exitCode := code)])
  }

  function OnExit(def: Def, s: Sys, started: Option<nat>): (r: Sys)
    requires Shaped(def, s) && s.exits != []
    ensures Shaped(def, r)
  {
    if s.curProc.None? || s.curExec < 0 then s.(exits := s.exits[1..], panicked := true)
    else
      var code, e := s.exits[0], Reap(def, s);
      match s.state
      case Stopping => e.(state := Stopped, curExec := 0)
      case InitRunning =>
        if code == 0 then StartCurrent(def, e.(curExec := s.curExec + 1), started)
        else e.(state := InitError, restartArmed := s.restartArmed || !def.noRestart)
      case Running =>
        e.(state := AfterMain(def, code), restartArmed := s.restartArmed || !(def.oneShot || def.noRestart))
      case _ => e.(odd := true)
  }

  predicate Enabled(s: Sys, e: Event) {
    if e.ProcessExits? then e.pid in s.live
    else
      && !s.deleted && !s.panicked
      && (e.KillFires? ==> s.killArmed)
      && (e.RestartFires? ==> s.restartArmed)
      && (e.ExitNotice? ==> s.exits != [])
      && (!e.KillFires? && e.started.Some? ==> e.started.value > 0 && e.started.value !in s.live)
  }

  function Step(def: Def, s: Sys, e: Event): (s': Sys)
    requires Shaped(def, s) && Enabled(s, e)
    ensures Shaped(def, s')
  {
    match e
    case Cmd(cmd, started) => OnCommand(def, s, cmd, started)
    case KillFires =>
      var s1 := s.(killArmed := false);
      if s.curProc.None? then s1 else MarkStopping(def, s1, true)
    case RestartFires(started) => StartCurrent(def, s.(restartArmed := false), started)
    case ExitNotice(started) => OnExit(def, s, started)
    case ProcessExits(pid, code) => s.(live := s.live - {pid}, exits := s.exits + [code])
  }

  // ----- safety -----

  predicate Active(st: ChildState) {
    st in {InitRunning, Running, Stopping}
  }

  /** Live processes plus exits on their way number one while the child is active and
      none otherwise; the status names that process; no impossible branch was taken. */
  ghost predicate Safe(def: Def, s: Sys) {
    && Shaped(def, s)
    && !s.panicked && !s.odd
    && |s.live| + |s.exits| == (if Active(s.state) then 1 else 0)
    && (Active(s.state) <==> s.curProc.Some?)
    && (s.live != {} ==> s.curProc.Some? && s.live == {s.curProc.value})
    && -1 <= s.curExec <= def.inits
    && (s.state in {InitRunning, InitError} ==> 0 <= s.curExec < def.inits)
    && (s.state in {Running, Failed, Done} ==> s.curExec == def.inits)
    && (s.state == Stopping || s.restartArmed ==> s.curExec >= 0)
    && (s.deleted ==> s.state in {Stopped, Done})
    && (forall i :: 0 <= i < |s.execs| ==>
          s.execs[i].pid == if s.curProc.Some? && i == s.curExec then s.curProc.value else 0)
  }

  /** A restart timer going off although a process is still there. */
  predicate Overtaken(s: Sys, e: Event) {
    e.RestartFires? && s.curProc.Some?
  }

  lemma InitiallySafe(def: Def)
    ensures Safe(def, Initial(def))
  {
  }

  /** Starting keeps the counts right exactly when no process is left over. */
  lemma StartSafeIff(def: Def, s: Sys, started: Option<nat>)
    requires Shaped(def, s) && 0 <= s.curExec <= def.inits && !s.panicked && !s.odd && !s.deleted
    requires |s.live| + |s.exits| <= 1 && (s.live != {} ==> s.curProc.Some? && s.live == {s.curProc.value})
    requires s.live == {} && s.exits == [] ==> s.curProc.None?
    requires started.Some? ==> started.value > 0 && started.value !in s.live
    requires forall i :: 0 <= i < |s.execs| ==> s.execs[i].pid == if s.curProc.Some? && i == s.curExec then s.curProc.value else 0
    ensures Safe(def, StartCurrent(def, s, started)) <==> s.live == {} && s.exits == []
  {
    var s' := StartCurrent(def, s, started);
    if s.live == {} {
      assert started.Some? ==> s'.live == {started.value};
    } else if started.Some? {
      assert started.value in s'.live && s.curProc.value in s'.live;
    }
  }

  lemma CommandSafe(def: Def, s: Sys, cmd: Command, started: Option<nat>)
    requires Safe(def, s) && Enabled(s, Cmd(cmd, started))
    ensures Safe(def, OnCommand(def, s, cmd, started))
  {
    if cmd == Start && s.state in {Stopped, Failed, InitError, Done} {
      StartSafeIff(def, s.(curExec := 0, log := s.log + [StartAccepted]), started);
    }
  }

  lemma ReapLeavesNothing(def: Def, s: Sys)
    requires Safe(def, s) && s.exits != []
    ensures s.curProc.Some? && Active(s.state) && 0 <= s.curExec <= def.inits
    ensures var r := Reap(def, s);
      && r.live == {} && r.exits == [] && r.curProc.None? && r.curExec == s.curExec
      && !r.panicked && !r.odd && !r.deleted && |r.execs| == def.inits + 1
      && forall i :: 0 <= i < |r.execs| ==> r.execs[i].pid == 0
  {
    assert |s.live| == 0;
  }

  lemma ExitSafe(def: Def, s: Sys, started: Option<nat>)
    requires Safe(def, s) && Enabled(s, ExitNotice(started))
    ensures Safe(def, OnExit(def, s, started))
  {
    hide Reap, StartCurrent;
    ReapLeavesNothing(def, s);
    var e := Reap(def, s);
    if s.state == InitRunning && s.exits[0] == 0 {
      StartSafeIff(def, e.(curExec := s.curExec + 1), started);
    }
  }

  lemma ProcessExitSafe(def: Def, s: Sys, pid: nat, code: int)
    requires Safe(def, s) && Enabled(s, ProcessExits(pid, code))
    ensures Safe(def, Step(def, s, ProcessExits(pid, code)))
  {
    assert s.live - {pid} == {};
  }

  /** A turn keeps the child safe exactly when it is not an overtaken restart. */
  lemma StepSafeIff(def: Def, s: Sys, e: Event)
    requires Safe(def, s) && Enabled(s, e)
    ensures Safe(def, Step(def, s, e)) <==> !Overtaken(s, e)
  {
    match e
    case Cmd(cmd, started) => CommandSafe(def, s, cmd, started);
    case KillFires =>
    case RestartFires(started) => StartSafeIff(def, s.(restartArmed := false), started);
    case ExitNotice(started) => ExitSafe(def, s, started);
    case ProcessExits(pid, code) => ProcessExitSafe(def, s, pid, code);
  }

  // ----- whole runs -----

  /** The state after a run; an event that is not enabled cannot be part of one. */
  function After(def: Def, events: seq<Event>): (s: Sys)
    ensures Shaped(def, s)
  {
    if events == [] then Initial(def)
    else
      var s, e := After(def, events[..|events| - 1]), events[|events| - 1];
      if Enabled(s, e) then Step(def, s, e) else s
  }

  ghost predicate Legal(def: Def, events: seq<Event>) {
    forall k :: 0 <= k < |events| ==> Enabled(After(def, events[..k]), events[k])
  }

  ghost predicate AlwaysSafe(def: Def, events: seq<Event>) {
    forall k :: 0 <= k <= |events| ==> Safe(def, After(def, events[..k]))
  }

  ghost predicate NeverOvertaken(def: Def, events: seq<Event>) {
    forall k :: 0 <= k < |events| ==> !Overtaken(After(def, events[..k]), events[k])
  }

  lemma AfterNext(def: Def, events: seq<Event>, k: nat)
    requires k < |events| && Enabled(After(def, events[..k]), events[k])
    ensures After(def, events[..k + 1]) == Step(def, After(def, events[..k]), events[k])
  {
    assert events[..k + 1][..k] == events[..k];
  }

  /** A run is safe throughout exactly when no restart timer goes off while a process is
      still there. */
  lemma RunSafeIff(def: Def, events: seq<Event>)
    requires Legal(def, events)
    ensures AlwaysSafe(def, events) <==> NeverOvertaken(def, events)
  {
    hide Safe, Step, Overtaken, Enabled;
    if NeverOvertaken(def, events) {
      forall k | 0 <= k <= |events| ensures Safe(def, After(def, events[..k])) {
        SafeUpTo(def, events, k);
      }
    }
    if AlwaysSafe(def, events) {
      forall k | 0 <= k < |events| ensures !Overtaken(After(def, events[..k]), events[k]) {
        AfterNext(def, events, k);
        StepSafeIff(def, After(def, events[..k]), events[k]);
      }
    }
  }

  lemma {:induction false} SafeUpTo(def: Def, events: seq<Event>, k: nat)
    requires Legal(def, events) && NeverOvertaken(def, events) && k <= |events|
    ensures Safe(def, After(def, events[..k]))
  {
    hide Safe, Step, Overtaken, Enabled;
    if k == 0 {
      InitiallySafe(def);
    } else {
      SafeUpTo(def, events, k - 1);
      AfterNext(def, events, k - 1);
      StepSafeIff(def, After(def, events[..k - 1]), events[k - 1]);
    }
  }

  /** A timer that goes off only in a state that arms it. */
  predicate Disciplined(s: Sys, e: Event) {
    && (e.RestartFires? ==> s.state in {Failed, InitError})
    && (e.KillFires? ==> s.state == Stopping)
  }

  /** In a disciplined run at most one process lives, its exit never blocks, no impossible
      branch is taken, and a deleted child has left no process behind. */
  lemma DisciplinedRunIsSafe(def: Def, events: seq<Event>)
    requires Legal(def, events)
    requires forall k :: 0 <= k < |events| ==> Disciplined(After(def, events[..k]), events[k])
    ensures AlwaysSafe(def, events)
    ensures var s := After(def, events);
      && |s.live| <= 1 && |s.exits| <= 1 && !s.panicked && !s.odd
      && (s.deleted ==> s.live == {} && s.exits == [])
  {
    forall k | 0 <= k <= |events| ensures Safe(def, After(def, events[..k])) {
      DisciplinedUpTo(def, events, k);
    }
    assert events[..|events|] == events;
  }

  lemma {:induction false} DisciplinedUpTo(def: Def, events: seq<Event>, k: nat)
    requires Legal(def, events) && k <= |events|
    requires forall i :: 0 <= i < |events| ==> Disciplined(After(def, events[..i]), events[i])
    ensures Safe(def, After(def, events[..k]))
  {
    hide Step, Enabled;
    if k > 0 {
      DisciplinedUpTo(def, events, k - 1);
      AfterNext(def, events, k - 1);
      assert Disciplined(After(def, events[..k - 1]), events[k - 1]);
      StepSafeIff(def, After(def, events[..k - 1]), events[k - 1]);
    } else {
      InitiallySafe(def);
    }
  }

  // ----- init order -----

  /** How many init steps have succeeded, in index order, since the last accepted start. */
  function Completed(n: nat, log: seq<Entry>): (c: nat)
    ensures c <= n
  {
    if log == [] then 0
    else
      var c := Completed(n, log[..|log| - 1]);
      match log[|log| - 1]
      case StartAccepted => 0
      case Ended(idx, code) => if idx == c && c < n && code == 0 then c + 1 else c
      case _ => c
  }

  /** Nothing was ever started before its turn: execution `i` only after inits 0..i-1 had
      succeeded in order since the last accepted start, the main process being `n`. */
  ghost predicate InTurn(n: nat, log: seq<Entry>) {
    log == [] || var front, last := log[..|log| - 1], log[|log| - 1];
      InTurn(n, front) && (last.Started? ==> 0 <= last.idx <= Completed(n, front))
  }

  lemma {:induction false} StartedInTurn(n: nat, log: seq<Entry>, i: nat)
    requires InTurn(n, log) && i < |log| && log[i].Started?
    ensures 0 <= log[i].idx <= Completed(n, log[..i])
    decreases |log|
  {
    if i < |log| - 1 {
      StartedInTurn(n, log[..|log| - 1], i);
      assert log[..|log| - 1][..i] == log[..i];
    }
  }

  ghost predicate Ordered(def: Def, s: Sys) {
    InTurn(def.inits, s.log) && s.curExec <= Completed(def.inits, s.log)
  }

  /** What one more entry does to the order kept so far. */
  lemma EntryKeepsTurns(n: nat, log: seq<Entry>, e: Entry)
    ensures InTurn(n, log + [e]) <==> InTurn(n, log) && (e.Started? ==> 0 <= e.idx <= Completed(n, log))
    ensures Completed(n, log + [e]) == match e
      case StartAccepted => 0
      case Ended(idx, code) =>
        if idx == Completed(n, log) && idx < n && code == 0 then idx + 1 else Completed(n, log)
      case _ => Completed(n, log)
  {
    assert (log + [e])[..|log|] == log;
  }

  lemma StartKeepsOrder(def: Def, s: Sys, started: Option<nat>)
    requires Shaped(def, s) && Ordered(def, s)
    ensures Ordered(def, StartCurrent(def, s, started))
  {
    hide InTurn, Completed;
    EntryKeepsTurns(def.inits, s.log, StartFailed(s.curExec));
    if started.Some? { EntryKeepsTurns(def.inits, s.log, Started(s.curExec, started.value)); }
  }

  lemma CommandKeepsOrder(def: Def, s: Sys, cmd: Command, started: Option<nat>)
    requires Shaped(def, s) && Ordered(def, s)
    ensures Ordered(def, OnCommand(def, s, cmd, started))
  {
    hide StartCurrent, Completed, InTurn;
    EntryKeepsTurns(def.inits, s.log, StartAccepted);
    EntryKeepsTurns(def.inits, s.log, StopAccepted);
    EntryKeepsTurns(def.inits, s.log, Signalled(s.curExec, false));
    if cmd == Start && s.state in {Stopped, Failed, InitError, Done} {
      StartKeepsOrder(def, s.(curExec := 0, log := s.log + [StartAccepted]), started);
    }
  }

  /** Taking an exit notice records the end, and an init step's success counts. */
  lemma ReapKeepsOrder(def: Def, s: Sys)
    requires Shaped(def, s) && s.exits != [] && 0 <= s.curExec <= def.inits && Ordered(def, s)
    ensures var r := Reap(def, s);
      Ordered(def, r) && (s.curExec < def.inits && s.exits[0] == 0 ==> Ordered(def, r.(curExec := s.curExec + 1)))
  {
    hide Completed, InTurn;
    EntryKeepsTurns(def.inits, s.log, Ended(s.curExec, s.exits[0]));
  }

  lemma ExitKeepsOrder(def: Def, s: Sys, started: Option<nat>)
    requires Safe(def, s) && Enabled(s, ExitNotice(started)) && Ordered(def, s)
    ensures Ordered(def, OnExit(def, s, started))
  {
    hide StartCurrent, Reap, Completed, InTurn;
    ReapLeavesNothing(def, s);
    ReapKeepsOrder(def, s);
    if s.state == InitRunning && s.exits[0] == 0 {
      StartKeepsOrder(def, Reap(def, s).(curExec := s.curExec + 1), started);
    }
  }

  lemma StepKeepsOrder(def: Def, s: Sys, e: Event)
    requires Safe(def, s) && Enabled(s, e) && Ordered(def, s)
    ensures Ordered(def, Step(def, s, e))
  {
    hide StartCurrent, OnCommand, OnExit, Completed, InTurn, Active;
    match e
    case Cmd(cmd, started) => CommandKeepsOrder(def, s, cmd, started);
    case RestartFires(started) => StartKeepsOrder(def, s.(restartArmed := false), started);
    case ExitNotice(started) => ExitKeepsOrder(def, s, started);
    case KillFires => EntryKeepsTurns(def.inits, s.log, Signalled(s.curExec, true));
    case _ =>
  }

  lemma InitiallyOrdered(def: Def)
    ensures Ordered(def, Initial(def))
  {
  }

  /** The count speaks of actual successes: positions in the log, in index order, with no
      accepted start after the first of them. */
  lemma {:induction false} CompletedMeans(n: nat, log: seq<Entry>) returns (at: seq<nat>)
    ensures |at| == Completed(n, log)
    ensures forall i :: 0 <= i < |at| ==> at[i] < |log| && log[at[i]] == Ended(i, 0)
    ensures forall i, j :: 0 <= i < j < |at| ==> at[i] < at[j]
    ensures |at| > 0 ==> forall p :: at[0] <= p < |log| ==> log[p] != StartAccepted
    decreases |log|
  {
    at := [];
    if log != [] {
      var front, last := log[..|log| - 1], log[|log| - 1];
      if last != StartAccepted {
        at := CompletedMeans(n, front);
        if last == Ended(|at|, 0) && |at| < n {
          at := at + [|log| - 1];
        }
      }
    }
  }

  lemma {:induction false} RunKeepsOrder(def: Def, events: seq<Event>)
    requires Legal(def, events) && NeverOvertaken(def, events)
    ensures Ordered(def, After(def, events))
  {
    hide Safe, Step, Overtaken, Enabled, Ordered;
    if events == [] {
      InitiallyOrdered(def);
    } else {
      var k := |events| - 1;
      var front := events[..k];
      assert forall i :: 0 <= i <= k ==> front[..i] == events[..i];
      RunKeepsOrder(def, front);
      SafeUpTo(def, events, k);
      assert Enabled(After(def, events[..k]), events[k]);
      StepKeepsOrder(def, After(def, front), events[k]);
    }
  }

  /** However many failures, restarts and stops a run has, while no restart overtakes a
      process the main process is only ever started after every init step ended with code
      0, in index order, since the last accepted start command. */
  lemma MainStartsAfterInits(def: Def, events: seq<Event>, p: nat) returns (at: seq<nat>)
    requires Legal(def, events) && NeverOvertaken(def, events)
    requires p < |After(def, events).log| && After(def, events).log[p].Started? && After(def, events).log[p].idx == def.inits
    ensures var log := After(def, events).log;
      && |at| == def.inits
      && (forall i :: 0 <= i < |at| ==> at[i] < p && log[at[i]] == Ended(i, 0))
      && (forall i, j :: 0 <= i < j < |at| ==> at[i] < at[j])
      && (|at| > 0 ==> forall q :: at[0] <= q < p ==> log[q] != StartAccepted)
  {
    hide After, Legal;
    var log := After(def, events).log;
    RunKeepsOrder(def, events);
    StartedInTurn(def.inits, log, p);
    at := CompletedMeans(def.inits, log[..p]);
    assert forall q :: 0 <= q < p ==> log[..p][q] == log[q];
  }

  // ----- stopping -----

  /** A stopped child stays as it is and starts nothing, except exactly when it is told to
      start or a restart timer of an earlier failure goes off. */
  lemma StopIsFinalIff(def: Def, s: Sys, e: Event)
    requires Safe(def, s) && Enabled(s, e) && s.state in {Stopped, Done}
    ensures var s' := Step(def, s, e);
      s'.state == s.state && s'.live == {} && s'.log == s.log <==> !e.RestartFires? && !(e.Cmd? && e.cmd == Start)
  {
    assert s.live == {};
    if e.RestartFires? || (e.Cmd? && e.cmd == Start) {
      assert Step(def, s, e).state != s.state;
    }
  }

  /** Whatever the process does with the signal, a stopping child is stopped, with its
      next start at the first step, once the process has ended. */
  lemma StoppingEndsInStopped(def: Def, s: Sys, pid: nat, code: int, started: Option<nat>)
    requires Safe(def, s) && s.state == Stopping && Enabled(s, ProcessExits(pid, code))
    requires !s.deleted && (started.Some? ==> started.value > 0)
    ensures var s1 := Step(def, s, ProcessExits(pid, code));
      && Enabled(s1, ExitNotice(started))
      && var s2 := Step(def, s1, ExitNotice(started));
        s2.state == Stopped && s2.curExec == 0 && s2.live == {} && s2.exits == [] && s2.curProc.None?
  {
    assert s.live - {pid} == {};
    assert |s.live| == 1;
  }

  // ----- timers nobody asked for -----

  /** A timer that acts although the state it was meant for has been left: a restart of a
      child that has not failed, or a kill of one nobody is stopping. */
  predicate Unasked(s: Sys, e: Event) {
    || (e.RestartFires? && s.state !in {Failed, InitError})
    || (e.KillFires? && s.state in {Running, InitRunning})
  }

  /** A command given while a timer is still armed that no longer suits what it leads to:
      an accepted start with any timer, or a stop that should cancel a restart. */
  predicate Risky(s: Sys, cmd: Command) {
    || (cmd == Start && s.state in {Stopped, Failed, InitError, Done} && (s.restartArmed || s.killArmed))
    || (cmd == Stop && s.state in {Failed, InitError} && s.restartArmed)
  }

  /** A risky command, which for a start means one whose process does start. */
  predicate Spoils(s: Sys, e: Event) {
    e.Cmd? && Risky(s, e.cmd) && (e.cmd == Start ==> e.started.Some?)
  }

  /** Every armed timer belongs to the state the child is in. */
  predicate Timely(s: Sys) {
    && (s.restartArmed ==> s.state in {Failed, InitError} && !s.killArmed)
    && (s.killArmed ==> s.state !in {Running, InitRunning})
  }

  /** A turn keeps the timers timely exactly when it is not a spoiling command. */
  lemma StepTimelyIff(def: Def, s: Sys, e: Event)
    requires Safe(def, s) && Timely(s) && Enabled(s, e)
    ensures Timely(Step(def, s, e)) <==> !Spoils(s, e)
    ensures !Overtaken(s, e) && !Unasked(s, e)
  {
  }

  /** No timer can go off unasked next. */
  ghost predicate Trusted(s: Sys) {
    forall e :: Enabled(s, e) ==> !Unasked(s, e)
  }

  /** A spoiling command is one turn away from a timer nobody asked for. */
  lemma SpoiledIsNotTrusted(def: Def, s: Sys, e: Event)
    requires Safe(def, s) && Timely(s) && Enabled(s, e) && Spoils(s, e)
    ensures !Trusted(Step(def, s, e))
  {
    var s' := Step(def, s, e);
    if s.restartArmed {
      assert Enabled(s', RestartFires(None)) && Unasked(s', RestartFires(None));
    } else {
      assert Enabled(s', KillFires) && Unasked(s', KillFires);
    }
  }

  /** Before a command is given: it can be the one that makes a timer go off unasked
      exactly when it is risky. */
  lemma RiskyIff(def: Def, s: Sys, cmd: Command)
    requires Safe(def, s) && Timely(s) && !s.deleted
    ensures Risky(s, cmd) <==>
      exists started :: Enabled(s, Cmd(cmd, started)) && !Trusted(Step(def, s, Cmd(cmd, started)))
  {
    hide Step, Timely;
    if Risky(s, cmd) {
      assert s.live == {};
      SpoiledIsNotTrusted(def, s, Cmd(cmd, Some(1)));
    } else {
      forall started | Enabled(s, Cmd(cmd, started)) ensures Trusted(Step(def, s, Cmd(cmd, started))) {
        StepTimelyIff(def, s, Cmd(cmd, started));
        StepSafeIff(def, s, Cmd(cmd, started));
        var s' := Step(def, s, Cmd(cmd, started));
        forall e | Enabled(s', e) ensures !Unasked(s', e) { StepTimelyIff(def, s', e); }
      }
    }
  }

  ghost predicate NeverSpoiled(def: Def, events: seq<Event>) {
    forall k :: 0 <= k < |events| ==> !Spoils(After(def, events[..k]), events[k])
  }

  ghost predicate AlwaysTrusted(def: Def, events: seq<Event>) {
    forall k :: 0 <= k <= |events| ==> Trusted(After(def, events[..k]))
  }

  lemma {:induction false} TimelyUpTo(def: Def, events: seq<Event>, k: nat)
    requires Legal(def, events) && k <= |events|
    requires forall i :: 0 <= i < k ==> !Spoils(After(def, events[..i]), events[i])
    ensures Safe(def, After(def, events[..k])) && Timely(After(def, events[..k]))
  {
    hide Safe, Step, Overtaken, Enabled, Spoils, Unasked;
    if k == 0 {
      InitiallySafe(def);
    } else {
      TimelyUpTo(def, events, k - 1);
      AfterNext(def, events, k - 1);
      StepTimelyIff(def, After(def, events[..k - 1]), events[k - 1]);
      StepSafeIff(def, After(def, events[..k - 1]), events[k - 1]);
    }
  }

  /** The exact condition of the intent that timers only act where they were meant to: at no
      moment of a run can one go off unasked exactly when no turn was a spoiling command. */
  lemma RunTrustedIff(def: Def, events: seq<Event>)
    requires Legal(def, events)
    ensures AlwaysTrusted(def, events) <==> NeverSpoiled(def, events)
  {
    hide Safe, Step, Enabled, Spoils, Unasked, Timely;
    if NeverSpoiled(def, events) {
      forall k | 0 <= k <= |events| ensures Trusted(After(def, events[..k])) {
        TimelyUpTo(def, events, k);
        forall e | Enabled(After(def, events[..k]), e) ensures !Unasked(After(def, events[..k]), e) {
          StepTimelyIff(def, After(def, events[..k]), e);
        }
      }
    } else {
      var k := FirstSpoiled(def, events);
      TimelyUpTo(def, events, k);
      AfterNext(def, events, k);
      SpoiledIsNotTrusted(def, After(def, events[..k]), events[k]);
    }
  }

  /** The first spoiling turn of a run, or its length. */
  lemma FirstSpoiled(def: Def, events: seq<Event>) returns (k: nat)
    ensures k <= |events| && forall i :: 0 <= i < k ==> !Spoils(After(def, events[..i]), events[i])
    ensures k < |events| ==> Spoils(After(def, events[..k]), events[k])
    ensures k == |events| <==> NeverSpoiled(def, events)
  {
    hide Spoils, After;
    k := 0;
    while k < |events| && !Spoils(After(def, events[..k]), events[k])
      invariant k <= |events| && forall i :: 0 <= i < k ==> !Spoils(After(def, events[..i]), events[i])
    {
      k := k + 1;
    }
  }

  /** Whoever gives no risky command sees no timer go off unasked, and the run is safe. */
  lemma NoRiskNoSurprise(def: Def, events: seq<Event>)
    requires Legal(def, events)
    requires forall k :: 0 <= k < |events| && events[k].Cmd? ==> !Risky(After(def, events[..k]), events[k].cmd)
    ensures AlwaysSafe(def, events)
    ensures forall k :: 0 <= k < |events| ==> !Unasked(After(def, events[..k]), events[k])
  {
    hide Safe, Step, Enabled, Risky, Unasked, Timely;
    forall k | 0 <= k <= |events| ensures Safe(def, After(def, events[..k])) && Timely(After(def, events[..k])) {
      TimelyUpTo(def, events, k);
    }
    forall k | 0 <= k < |events| ensures !Unasked(After(def, events[..k]), events[k]) {
      StepTimelyIff(def, After(def, events[..k]), events[k]);
    }
  }

  // ----- what such timers do -----

  lemma Extend(def: Def, events: seq<Event>, e: Event)
    requires Legal(def, events) && Enabled(After(def, events), e)
    ensures Legal(def, events + [e]) && After(def, events + [e]) == Step(def, After(def, events), e)
  {
    assert (events + [e])[..|events|] == events;
    assert forall k :: 0 <= k < |events| ==> (events + [e])[..k] == events[..k];
  }

  /** A first main process that failed, was reaped and left its restart timer armed. */
  lemma FailedRun() returns (events: seq<Event>)
    ensures Legal(Def(0, false, false), events)
    ensures var s := After(Def(0, false, false), events);
      s.state == Failed && s.restartArmed && s.curProc.None? && s.live == {} && s.exits == [] && !s.deleted && !s.panicked
  {
    hide After, Legal;
    var def := Def(0, false, false);
    events := [];
    assert Legal(def, []) && After(def, []) == Initial(def) by { EmptyRun(def); }
    Extend(def, events, Cmd(Start, Some(1)));
    events := events + [Cmd(Start, Some(1))];
    Extend(def, events, ProcessExits(1, 0));
    events := events + [ProcessExits(1, 0)];
    Extend(def, events, ExitNotice(None));
    events := events + [ExitNotice(None)];
  }

  lemma EmptyRun(def: Def)
    ensures Legal(def, []) && After(def, []) == Initial(def)
  {
  }

  /** A start command overtakes the restart the previous failure armed; when the old timer
      goes off a second process is started beside the first. */
  lemma OvertakenRestartDoublesProcesses()
    ensures exists def, events :: Legal(def, events) && After(def, events).live == {2, 3}
  {
    hide After, Legal;
    var def := Def(0, false, false);
    var events := FailedRun();
    Extend(def, events, Cmd(Start, Some(2)));
    var e1 := events + [Cmd(Start, Some(2))];
    assert After(def, e1).live == {2};
    Extend(def, e1, RestartFires(Some(3)));
    assert After(def, e1 + [RestartFires(Some(3))]).live == {2, 3};
  }

  /** A kill timer left from an earlier stop stops a process nobody asked to stop. */
  lemma StaleKillStopsNewRun()
    ensures exists def, events :: Legal(def, events) && StoppedUnasked(def, events)
  {
    hide After, Legal;
    var def := Def(0, false, false);
    EmptyRun(def);
    var e0: seq<Event> := [];
    Extend(def, e0, Cmd(Start, Some(1)));
    var e1 := e0 + [Cmd(Start, Some(1))];
    Extend(def, e1, Cmd(Stop, None));
    var e2 := e1 + [Cmd(Stop, None)];
    Extend(def, e2, ProcessExits(1, 0));
    var e3 := e2 + [ProcessExits(1, 0)];
    Extend(def, e3, ExitNotice(None));
    var e4 := e3 + [ExitNotice(None)];
    Extend(def, e4, Cmd(Start, Some(2)));
    var e5 := e4 + [Cmd(Start, Some(2))];
    Extend(def, e5, KillFires);
    var e6 := e5 + [KillFires];
    assert e6[..|e6| - 1] == e5;
    assert StoppedUnasked(def, e6);
  }

  /** A stop meant to cancel the restart leaves the timer armed, and the stopped child is
      started again. */
  lemma StopLeavesRestart()
    ensures exists def, events :: Legal(def, events) && RestartedUnasked(def, events)
  {
    hide After, Legal;
    var def := Def(0, false, false);
    var events := FailedRun();
    Extend(def, events, Cmd(Stop, None));
    var e1 := events + [Cmd(Stop, None)];
    Extend(def, e1, RestartFires(Some(2)));
    var e2 := e1 + [RestartFires(Some(2))];
    assert e2[..|e2| - 1] == e1;
    assert RestartedUnasked(def, e2);
  }

  /** The run ends with a restart timer that takes a stopped child to running. */
  ghost predicate RestartedUnasked(def: Def, events: seq<Event>) {
    && events != [] && events[|events| - 1].RestartFires?
    && After(def, events[..|events| - 1]).state == Stopped
    && After(def, events).state == Running
  }

  /** The run ends with a kill timer that takes a running child to stopping. */
  ghost predicate StoppedUnasked(def: Def, events: seq<Event>) {
    && events != [] && events[|events| - 1].KillFires?
    && After(def, events[..|events| - 1]).state == Running
    && After(def, events).state == Stopping
  }

  // ----- the loop -----

  /** The manager of one child. `live` and `log` record what its surroundings see. */
  class Child {
    const def: Def
    var state: ChildState
    var execs: seq<ExecStatus>
    var curExec: int
    var curProc: Option<nat>
    var kill: bool
    var restart: bool
    var deleted: bool
    var panicked: bool
    var odd: bool
    var procExited: seq<int>
    ghost var live: set<nat>
    ghost var log: seq<Entry>

    ghost function View(): Sys
      reads this
    {
      Sys(state, execs, curExec, curProc, kill, restart, deleted, panicked, odd, live, procExited, log)
    }

    constructor (def: Def)
      ensures View() == Initial(def) && this.def == def
    {
      this.def := def;
      state, execs, curExec, curProc := Stopped, seq(def.inits + 1, i => NOT_STARTED), -1, None;
      kill, restart, deleted, panicked, odd := false, false, false, false, false;
      procExited, live, log := [], {}, [];
    }

    method StartExec(started: Option<nat>)
      requires Shaped(def, View())
      modifies this
      ensures View() == StartCurrent(def, old(View()), started)
    {
      if curExec < 0 {
        panicked := true;
        return;
      }
      var runningState, errorState, k := Running, Failed, def.inits;
      if curExec < def.inits {
        runningState, errorState, k := InitRunning, InitError, curExec;
      }
      match started {
        case None =>
          curProc, state := None, errorState;
          execs := execs[k := ExecStatus(NotStarted, true, 0, 0)];
          log := log + [StartFailed(curExec)];
        case Some(p) =>
          curProc, state := Some(p), runningState;
          execs := execs[k := ExecStatus(ExecRunning, false, p, 0)];
          live, log := live + {p}, log + [Started(curExec, p)];
      }
    }

    /** Signals the current process; the signal itself shows only as a later exit. */
    method Signal(forced: bool)
      requires Shaped(def, View())
      modifies this`state, this`execs, this`panicked, this`log
      ensures View() == MarkStopping(def, old(View()), forced)
    {
      if curExec < 0 {
        panicked := true;
        return;
      }
      var k := Slot(def, curExec);
      execs := execs[k := execs[k].(state := ExecStopping)];
      state := Stopping;
      log := log + [Signalled(curExec, forced)];
    }

    method HandleCommand(cmd: Command, started: Option<nat>)
      requires Shaped(def, View())
      modifies this
      ensures View() == OnCommand(def, old(View()), cmd, started)
    {
      match cmd {
        case Ping =>
        case Start =>
          if state in {Stopped, Failed, InitError, Done} {
            curExec := 0;
            log := log + [StartAccepted];
            StartExec(started);
          }
        case Stop =>
          if curProc.None? {
            if state in {Failed, InitError} {
              curExec := 0;
              state := Stopped;
              log := log + [StopAccepted];
            } else if state !in {Stopped, Done} {
              odd := true;
            }
          } else {
            Signal(false);
            kill := true;
          }
        case Delete =>
          if state in {Stopped, Done} {
            deleted := true;
          }
      }
    }

    method ReapProcess() returns (code: int)
      requires Shaped(def, View()) && procExited != [] && curExec >= 0
      modifies this`curProc, this`procExited, this`execs, this`log
      ensures View() == Reap(def, old(View())) && code == old(procExited)[0] && Shaped(def, View())
    {
      code := procExited[0];
      procExited := procExited[1..];
      curProc := None;
      var k := Slot(def, curExec);
      execs := execs[k := execs[k].(state := ExecEnded, pid := 0, exitCode := code)];
      log := log + [Ended(curExec, code)];
    }

    method HandleExit(started: Option<nat>)
      requires Shaped(def, View()) && procExited != []
      modifies this
      ensures View() == OnExit(def, old(View()), started)
    {
      hide Reap, StartCurrent;
      if curProc.None? || curExec < 0 {
        procExited := procExited[1..];
        panicked := true;
        return;
      }
      var code := ReapProcess();
      match state {
        case Stopping =>
          state := Stopped;
          curExec := 0;
        case InitRunning =>
          if code == 0 {
            curExec := curExec + 1;
            StartExec(started);
          } else {
            state := InitError;
            if !def.noRestart {
              restart := true;
            }
          }
        case Running =>
          if def.oneShot {
            state := if code == 0 then Done else Failed;
          } else {
            state := if code == 0 && def.noRestart then Stopped else Failed;
            if !def.noRestart {
              restart := true;
            }
          }
        case _ => odd := true;
      }
    }

    method Handle(e: Event)
      requires Shaped(def, View()) && Enabled(View(), e)
      modifies this
      ensures View() == Step(def, old(View()), e)
    {
      match e {
        case Cmd(cmd, started) => HandleCommand(cmd, started);
        case KillFires =>
          kill := false;
          if curProc.Some? {
            Signal(true);
          }
        case RestartFires(started) =>
          restart := false;
          StartExec(started);
        case ExitNotice(started) => HandleExit(started);
        case ProcessExits(pid, code) =>
          live := live - {pid};
          procExited := procExited + [code];
      }
    }

    /** The manager loop over the events a run brings; it leaves nothing running once the
        child is deleted, provided timers only went off where they were armed. */
    method Run(events: seq<Event>)
      requires View() == Initial(def) && Legal(def, events)
      modifies this
      ensures View() == After(def, events)
      ensures NeverOvertaken(def, events) ==> Safe(def, View()) && (deleted ==> live == {} && procExited == [])
    {
      hide Step, Safe, Enabled, Overtaken;
      for i := 0 to |events|
        invariant View() == After(def, events[..i])
      {
        AfterNext(def, events, i);
        Handle(events[i]);
      }
      assert events[..|events|] == events;
      if NeverOvertaken(def, events) {
        SafeUpTo(def, events, |events|);
        SafelyDeleted(def, View());
      }
    }
  }

  lemma SafelyDeleted(def: Def, s: Sys)
    requires Safe(def, s)
    ensures s.deleted ==> s.live == {} && s.exits == []
  {
  }
}
