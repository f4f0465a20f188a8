/** What becomes of a child: over whole runs its state, its statuses and its restart timer
    are decided by what has happened to its processes and by the commands given. */
module ChildOutcomes {
  import opened Wrappers
  import opened ManagedChild

  // ----- what a log ends in -----

  predicate EndsSignalled(log: seq<Entry>) {
    log != [] && log[|log| - 1].Signalled?
  }

  /** The last thing that happened is that an execution ended by itself, not signalled. */
  predicate EndsAlone(log: seq<Entry>) {
    log != [] && log[|log| - 1].Ended? && !EndsSignalled(log[..|log| - 1])
  }

  /** State by state: what has to have happened last, and nothing else has. */
  predicate Tells(def: Def, log: seq<Entry>, st: ChildState) {
    if log == [] then st == Stopped
    else
      var n, e, alone := def.inits, log[|log| - 1], EndsAlone(log);
      && (st == InitRunning <==> e.Started? && e.idx < n)
      && (st == Running <==> e.Started? && e.idx == n)
      && (st == Stopping <==> e.Signalled?)
      && (st == InitError <==> (e.StartFailed? || (alone && e.code != 0)) && e.idx < n)
      && (st == Done <==> alone && e == Ended(n, 0) && def.oneShot)
      && (st == Failed <==>
            || e == StartFailed(n)
            || (alone && e.idx == n && !(e.code == 0 && (def.oneShot || def.noRestart))))
      && (st == Stopped <==>
            || e.StopAccepted? || (e.Ended? && !alone)
            || (alone && e == Ended(n, 0) && def.noRestart && !def.oneShot))
  }

  lemma Last(log: seq<Entry>, e: Entry)
    ensures (log + [e])[..|log + [e]| - 1] == log && (log + [e])[|log + [e]| - 1] == e
  {
  }

  lemma StartTells(def: Def, s: Sys, started: Option<nat>)
    requires Shaped(def, s) && 0 <= s.curExec <= def.inits
    ensures var s' := StartCurrent(def, s, started); Tells(def, s'.log, s'.state)
  {
    Last(s.log, StartFailed(s.curExec));
    if started.Some? {
      Last(s.log, Started(s.curExec, started.value));
    }
  }

  lemma SignalTells(def: Def, s: Sys, forced: bool)
    requires Shaped(def, s) && 0 <= s.curExec
    ensures var s' := MarkStopping(def, s, forced); Tells(def, s'.log, s'.state)
  {
    Last(s.log, Signalled(s.curExec, forced));
  }

  lemma CommandTells(def: Def, s: Sys, cmd: Command, started: Option<nat>)
    requires Safe(def, s) && Tells(def, s.log, s.state)
    ensures var s' := OnCommand(def, s, cmd, started); Tells(def, s'.log, s'.state)
  {
    hide Tells, StartCurrent, MarkStopping;
    if cmd == Start && s.state in {Stopped, Failed, InitError, Done} {
      StartTells(def, s.(curExec := 0, log := s.log + [StartAccepted]), started);
    }
    if cmd == Stop && s.curProc.Some? { SignalTells(def, s, false); }
    if cmd == Stop && s.state in {Failed, InitError} { IdleStopTells(def, s.log); }
  }

  lemma IdleStopTells(def: Def, log: seq<Entry>)
    ensures Tells(def, log + [StopAccepted], Stopped)
  {
    Last(log, StopAccepted);
  }

  /** How a process that ended leaves the child, by the state it ended in. */
  lemma EndTells(def: Def, log: seq<Entry>, st: ChildState, idx: int, code: int)
    requires Tells(def, log, st) && Active(st) && (st == Running ==> idx == def.inits)
    requires (st == InitRunning ==> idx < def.inits && code != 0) && idx <= def.inits
    ensures Tells(def, log + [Ended(idx, code)], match st
      case Stopping => Stopped
      case InitRunning => InitError
      case _ => AfterMain(def, code))
  {
    Last(log, Ended(idx, code));
  }

  lemma ExitTells(def: Def, s: Sys, started: Option<nat>)
    requires Safe(def, s) && s.exits != [] && Tells(def, s.log, s.state)
    ensures var s' := OnExit(def, s, started); Tells(def, s'.log, s'.state)
  {
    hide Tells, StartCurrent, AfterMain;
    ReapLeavesNothing(def, s);
    if s.state == InitRunning && s.exits[0] == 0 {
      StartTells(def, Reap(def, s).(curExec := s.curExec + 1), started);
    } else {
      EndTells(def, s.log, s.state, s.curExec, s.exits[0]);
    }
  }

  lemma StepTells(def: Def, s: Sys, e: Event)
    requires Safe(def, s) && Enabled(s, e) && Tells(def, s.log, s.state)
    ensures var s' := Step(def, s, e); Tells(def, s'.log, s'.state)
  {
    hide Tells, StartCurrent, MarkStopping, OnCommand, OnExit;
    match e
    case Cmd(cmd, started) => CommandTells(def, s, cmd, started);
    case KillFires => if s.curProc.Some? { SignalTells(def, s.(killArmed := false), true); }
    case RestartFires(started) => StartTells(def, s.(restartArmed := false), started);
    case ExitNotice(started) => ExitTells(def, s, started);
    case ProcessExits(_, _) =>
  }

  lemma InitiallyTells(def: Def)
    ensures Tells(def, Initial(def).log, Initial(def).state)
  {
  }

  /** Over every run in which no restart overtakes a process, the state of the child is the
      one its log tells: it is `Done` exactly when it is a one-shot whose main process was
      the last thing to happen and ended by itself with code 0, and so on for each state. */
  lemma {:induction false} RunTells(def: Def, events: seq<Event>)
    requires Legal(def, events) && NeverOvertaken(def, events)
    ensures Tells(def, After(def, events).log, After(def, events).state)
  {
    hide Safe, Step, Overtaken, Enabled, Tells;
    if events == [] {
      InitiallyTells(def);
    } else {
      var k := |events| - 1;
      var front := events[..k];
      assert forall i :: 0 <= i <= k ==> front[..i] == events[..i];
      RunTells(def, front);
      SafeUpTo(def, events, k);
      assert Enabled(After(def, events[..k]), events[k]);
      StepTells(def, After(def, front), events[k]);
    }
  }

  lemma SafeParts(def: Def, s: Sys)
    requires Safe(def, s)
    ensures Shaped(def, s) && -1 <= s.curExec <= def.inits && (Active(s.state) <==> s.curProc.Some?)
    ensures s.exits != [] ==> Active(s.state) && s.curExec >= 0
    ensures s.curProc.Some? ==> s.curExec >= 0
    ensures s.restartArmed ==> s.curExec >= 0
    ensures s.state in {InitRunning, InitError} ==> s.curExec < def.inits
    ensures s.state in {Running, Failed, Done} ==> s.curExec == def.inits
  {
    if s.exits != [] { ReapLeavesNothing(def, s); }
  }

  /** A running child whose process ends: done, stopped or failed by its definition and the
      exit code, and restarted only when it is neither a one-shot nor without restarts. */
  lemma RunningEnds(def: Def, s: Sys, pid: nat, code: int, started: Option<nat>)
    requires Safe(def, s) && s.state == Running && Enabled(s, ProcessExits(pid, code))
    requires started.Some? ==> started.value > 0
    ensures var s1 := Step(def, s, ProcessExits(pid, code));
      && Enabled(s1, ExitNotice(started))
      && var s2 := Step(def, s1, ExitNotice(started));
        && s2.state in {Done, Stopped, Failed}
        && (s2.state == Done <==> def.oneShot && code == 0)
        && (s2.state == Stopped <==> !def.oneShot && def.noRestart && code == 0)
        && (s2.restartArmed <==> s.restartArmed || (!def.oneShot && !def.noRestart))
        && s2.live == {} && s2.log == s.log + [Ended(def.inits, code)]
  {
    assert s.live - {pid} == {};
    assert |s.live| == 1;
  }

  /** An init step that ends: the next execution is started when it succeeded; otherwise
      the child fails there and is restarted unless it is without restarts. */
  lemma InitEnds(def: Def, s: Sys, pid: nat, code: int, started: Option<nat>)
    requires Safe(def, s) && s.state == InitRunning && Enabled(s, ProcessExits(pid, code))
    requires started.Some? ==> started.value > 0
    ensures var s1 := Step(def, s, ProcessExits(pid, code));
      && Enabled(s1, ExitNotice(started))
      && var s2, i := Step(def, s1, ExitNotice(started)), s.curExec;
        if code == 0 then
          && s2.log == s.log + [Ended(i, 0), if started.Some? then Started(i + 1, started.value) else StartFailed(i + 1)]
          && s2.restartArmed == s.restartArmed
        else
          && s2.log == s.log + [Ended(i, code)] && s2.state == InitError && s2.curExec == i
          && (s2.restartArmed <==> s.restartArmed || !def.noRestart)
  {
    hide Active;
    SafeParts(def, s);
    assert s.live - {pid} == {} && s.exits == [] by { OneProcess(def, s); }
    var e := if started.Some? then Started(s.curExec + 1, started.value) else StartFailed(s.curExec + 1);
    assert s.log + [Ended(s.curExec, 0)] + [e] == s.log + [Ended(s.curExec, 0), e];
  }

  lemma OneProcess(def: Def, s: Sys)
    requires Safe(def, s) && s.live != {}
    ensures s.exits == [] && s.curProc.Some? && s.live == {s.curProc.value}
  {
    assert |s.live| == 1;
  }

  // ----- the statuses shown -----

  /** What a log says about one status slot: what became last of the execution it is for. */
  function Shown(def: Def, log: seq<Entry>, k: nat): ExecStatus {
    if log == [] then ExecStatus(NotStarted, false, 0, 0)
    else
      var before, e := Shown(def, log[..|log| - 1], k), log[|log| - 1];
      if e.StartAccepted? || e.StopAccepted? || e.idx != k then before
      else
        match e
        case Started(_, pid) => ExecStatus(ExecRunning, false, pid, 0)
        case StartFailed(_) => ExecStatus(NotStarted, true, 0, 0)
        case Signalled(_, _) => ExecStatus(ExecStopping, false, before.pid, 0)
        case Ended(_, code) => ExecStatus(ExecEnded, false, 0, code)
  }

  /** Every status is what the log says, and that of a live process is a running one's. */
  ghost predicate ShowsAll(def: Def, s: Sys) {
    && Shaped(def, s)
    && (forall k :: 0 <= k <= def.inits ==> s.execs[k] == Shown(def, s.log, k))
    && (s.curProc.Some? && 0 <= s.curExec <= def.inits ==>
          !s.execs[s.curExec].startErr && s.execs[s.curExec].exitCode == 0)
  }

  lemma ShownLast(def: Def, log: seq<Entry>, e: Entry, k: nat)
    ensures var before := Shown(def, log, k);
      Shown(def, log + [e], k) ==
        if e.StartAccepted? || e.StopAccepted? || e.idx != k then before
        else match e
          case Started(_, pid) => ExecStatus(ExecRunning, false, pid, 0)
          case StartFailed(_) => ExecStatus(NotStarted, true, 0, 0)
          case Signalled(_, _) => ExecStatus(ExecStopping, false, before.pid, 0)
          case Ended(_, code) => ExecStatus(ExecEnded, false, 0, code)
  {
    Last(log, e);
  }

  lemma StartShows(def: Def, s: Sys, started: Option<nat>)
    requires ShowsAll(def, s) && 0 <= s.curExec <= def.inits
    ensures ShowsAll(def, StartCurrent(def, s, started))
  {
    hide Shown;
    forall k | 0 <= k <= def.inits ensures StartCurrent(def, s, started).execs[k] == Shown(def, StartCurrent(def, s, started).log, k) {
      ShownLast(def, s.log, StartFailed(s.curExec), k);
      if started.Some? { ShownLast(def, s.log, Started(s.curExec, started.value), k); }
    }
  }

  lemma SignalShows(def: Def, s: Sys, forced: bool)
    requires ShowsAll(def, s) && 0 <= s.curExec <= def.inits && s.curProc.Some?
    ensures ShowsAll(def, MarkStopping(def, s, forced))
  {
    hide Shown;
    forall k | 0 <= k <= def.inits ensures MarkStopping(def, s, forced).execs[k] == Shown(def, MarkStopping(def, s, forced).log, k) {
      ShownLast(def, s.log, Signalled(s.curExec, forced), k);
    }
  }

  lemma ReapShows(def: Def, s: Sys)
    requires ShowsAll(def, s) && 0 <= s.curExec <= def.inits && s.curProc.Some? && s.exits != []
    ensures ShowsAll(def, Reap(def, s))
  {
    hide Shown;
    forall k | 0 <= k <= def.inits ensures Reap(def, s).execs[k] == Shown(def, Reap(def, s).log, k) {
      ShownLast(def, s.log, Ended(s.curExec, s.exits[0]), k);
    }
  }

  lemma AcceptShows(def: Def, s: Sys, e: Entry)
    requires ShowsAll(def, s) && (e.StartAccepted? || e.StopAccepted?)
    ensures forall k :: 0 <= k <= def.inits ==> s.execs[k] == Shown(def, s.log + [e], k)
  {
    hide Shown;
    forall k | 0 <= k <= def.inits ensures s.execs[k] == Shown(def, s.log + [e], k) { ShownLast(def, s.log, e, k); }
  }

  lemma CommandShows(def: Def, s: Sys, cmd: Command, started: Option<nat>)
    requires Safe(def, s) && ShowsAll(def, s)
    ensures ShowsAll(def, OnCommand(def, s, cmd, started))
  {
    hide Shown, StartCurrent, MarkStopping;
    AcceptShows(def, s, StartAccepted);
    AcceptShows(def, s, StopAccepted);
    if cmd == Start && s.state in {Stopped, Failed, InitError, Done} {
      StartShows(def, s.(curExec := 0, log := s.log + [StartAccepted]), started);
    }
    if cmd == Stop && s.curProc.Some? { SignalShows(def, s, false); }
  }

  lemma StepShows(def: Def, s: Sys, e: Event)
    requires Safe(def, s) && Enabled(s, e) && ShowsAll(def, s)
    ensures ShowsAll(def, Step(def, s, e))
  {
    hide Shown, StartCurrent, MarkStopping, OnCommand, Reap;
    match e
    case Cmd(cmd, started) => CommandShows(def, s, cmd, started);
    case KillFires => if s.curProc.Some? { SignalShows(def, s.(killArmed := false), true); }
    case RestartFires(started) => StartShows(def, s.(restartArmed := false), started);
    case ExitNotice(started) =>
      ReapLeavesNothing(def, s);
      ReapShows(def, s);
      if s.state == InitRunning && s.exits[0] == 0 { StartShows(def, Reap(def, s).(curExec := s.curExec + 1), started); }
    case ProcessExits(_, _) =>
  }

  lemma InitiallyShows(def: Def)
    ensures ShowsAll(def, Initial(def))
  {
  }

  /** Over every such run each status shown is what became last of that execution: not
      started, failed to start, running under its process id, told to stop, or ended with
      its exit code. */
  lemma {:induction false} RunShows(def: Def, events: seq<Event>)
    requires Legal(def, events) && NeverOvertaken(def, events)
    ensures ShowsAll(def, After(def, events))
  {
    hide Safe, Step, Overtaken, Enabled, ShowsAll;
    if events == [] {
      InitiallyShows(def);
    } else {
      var k := |events| - 1;
      var front := events[..k];
      assert forall i :: 0 <= i <= k ==> front[..i] == events[..i];
      RunShows(def, front);
      SafeUpTo(def, events, k);
      assert Enabled(After(def, events[..k]), events[k]);
      StepShows(def, After(def, front), events[k]);
    }
  }

  // ----- the restart timer -----

  /** A failure the child is restarted after: it ended by itself, not as a one-shot, and
      restarts are wanted. */
  predicate WantsRestart(def: Def, log: seq<Entry>) {
    && !def.noRestart && EndsAlone(log)
    && var e := log[|log| - 1]; if e.idx < def.inits then e.code != 0 else !def.oneShot
  }

  ghost predicate ArmedAsTold(def: Def, s: Sys) {
    s.restartArmed <==> WantsRestart(def, s.log)
  }

  lemma StartDisarms(def: Def, s: Sys, started: Option<nat>)
    requires Shaped(def, s) && 0 <= s.curExec && !s.restartArmed
    ensures ArmedAsTold(def, StartCurrent(def, s, started))
  {
    Last(s.log, StartFailed(s.curExec));
    if started.Some? { Last(s.log, Started(s.curExec, started.value)); }
  }

  lemma SignalArms(def: Def, s: Sys, forced: bool)
    requires Shaped(def, s) && 0 <= s.curExec && !s.restartArmed
    ensures ArmedAsTold(def, MarkStopping(def, s, forced))
  {
    Last(s.log, Signalled(s.curExec, forced));
  }

  lemma CommandArms(def: Def, s: Sys, cmd: Command, started: Option<nat>)
    requires Safe(def, s) && Timely(s) && ArmedAsTold(def, s) && !Risky(s, cmd)
    ensures ArmedAsTold(def, OnCommand(def, s, cmd, started))
  {
    hide Safe, WantsRestart, StartCurrent, MarkStopping;
    SafeParts(def, s);
    IdleStopArms(def, s.log);
    if cmd == Start && s.state in {Stopped, Failed, InitError, Done} {
      StartDisarms(def, s.(curExec := 0, log := s.log + [StartAccepted]), started);
    }
    if cmd == Stop && s.curProc.Some? { SignalArms(def, s, false); }
  }

  lemma IdleStopArms(def: Def, log: seq<Entry>)
    ensures !WantsRestart(def, log + [StopAccepted])
  {
    Last(log, StopAccepted);
  }

  lemma EndArms(def: Def, log: seq<Entry>, st: ChildState, idx: int, code: int)
    requires Tells(def, log, st) && Active(st)
    ensures WantsRestart(def, log + [Ended(idx, code)]) <==>
      st != Stopping && !def.noRestart && if idx < def.inits then code != 0 else !def.oneShot
  {
    Last(log, Ended(idx, code));
  }

  lemma ExitArms(def: Def, s: Sys, started: Option<nat>)
    requires Safe(def, s) && Timely(s) && s.exits != [] && Tells(def, s.log, s.state) && ArmedAsTold(def, s)
    ensures ArmedAsTold(def, OnExit(def, s, started))
  {
    hide Safe, WantsRestart, StartCurrent, Tells;
    SafeParts(def, s);
    if s.state == InitRunning && s.exits[0] == 0 {
      StartDisarms(def, Reap(def, s).(curExec := s.curExec + 1), started);
    } else {
      EndArms(def, s.log, s.state, s.curExec, s.exits[0]);
    }
  }

  /** A turn that is no risky command leaves the restart timer armed exactly after such a
      failure. */
  lemma StepArms(def: Def, s: Sys, e: Event)
    requires Safe(def, s) && Timely(s) && Enabled(s, e) && Tells(def, s.log, s.state) && ArmedAsTold(def, s)
    requires e.Cmd? ==> !Risky(s, e.cmd)
    ensures ArmedAsTold(def, Step(def, s, e))
  {
    hide Safe, WantsRestart, StartCurrent, MarkStopping, OnCommand, OnExit, Tells, Risky;
    SafeParts(def, s);
    match e
    case Cmd(cmd, started) => CommandArms(def, s, cmd, started);
    case KillFires => if s.curProc.Some? { SignalArms(def, s.(killArmed := false), true); }
    case RestartFires(started) => StartDisarms(def, s.(restartArmed := false), started);
    case ExitNotice(started) => ExitArms(def, s, started);
    case ProcessExits(_, _) =>
  }

  /** Over every run without risky commands, a restart is under way exactly after a failure
      the child is restarted after. */
  lemma {:induction false} RunArms(def: Def, events: seq<Event>)
    requires Legal(def, events)
    requires forall k :: 0 <= k < |events| && events[k].Cmd? ==> !Risky(After(def, events[..k]), events[k].cmd)
    ensures ArmedAsTold(def, After(def, events)) && Tells(def, After(def, events).log, After(def, events).state)
  {
    hide Safe, Step, Enabled, Tells, ArmedAsTold, Risky, Timely, Overtaken;
    if events == [] {
      InitiallyTells(def);
      InitiallyArmed(def);
    } else {
      var k := |events| - 1;
      var front := events[..k];
      assert forall i :: 0 <= i <= k ==> front[..i] == events[..i];
      RunArms(def, front);
      TimelyUpTo(def, events, k);
      assert Enabled(After(def, events[..k]), events[k]);
      StepArms(def, After(def, front), events[k]);
      StepTells(def, After(def, front), events[k]);
    }
  }

  lemma InitiallyArmed(def: Def)
    ensures ArmedAsTold(def, Initial(def))
  {
  }

  // ----- commands -----

  /** A start begins with the first execution where nothing runs, and is ignored elsewhere. */
  lemma StartBegins(def: Def, s: Sys, started: Option<nat>)
    requires Safe(def, s) && Enabled(s, Cmd(Start, started))
    ensures var s' := Step(def, s, Cmd(Start, started));
      if s.live == {} && s.exits == [] then
        && s'.log == s.log + [StartAccepted, if started.Some? then Started(0, started.value) else StartFailed(0)]
        && s'.curExec == 0
      else s' == s
  {
    var e := if started.Some? then Started(0, started.value) else StartFailed(0);
    assert s.log + [StartAccepted] + [e] == s.log + [StartAccepted, e];
  }

  /** A stop asks a process to terminate and arms the kill timer; without a process the
      child is stopped at once. */
  lemma StopStops(def: Def, s: Sys, started: Option<nat>)
    requires Safe(def, s) && Enabled(s, Cmd(Stop, started))
    ensures var s' := Step(def, s, Cmd(Stop, started));
      if s.curProc.Some? then
        s'.killArmed && s'.log == s.log + [Signalled(s.curExec, false)] && s'.state == Stopping
      else
        && s'.state in {Stopped, Done} && s'.killArmed == s.killArmed && (s.state == Done <==> s'.state == Done)
        && (s.state in {Failed, InitError} ==> s'.curExec == 0 && s'.log == s.log + [StopAccepted])
  {
  }

  /** A ping changes nothing. */
  lemma PingIsIdle(def: Def, s: Sys, started: Option<nat>)
    requires Safe(def, s) && Enabled(s, Cmd(Ping, started))
    ensures Step(def, s, Cmd(Ping, started)) == s
  {
  }

  /** Deleting ends the loop exactly where nothing runs or is to be restarted. */
  lemma DeleteEnds(def: Def, s: Sys, started: Option<nat>)
    requires Safe(def, s) && Enabled(s, Cmd(Delete, started))
    ensures var s' := Step(def, s, Cmd(Delete, started));
      (s'.deleted <==> s.state in {Stopped, Done}) && s' == s.(deleted := s'.deleted)
  {
  }

  /** A kill timer forces out the process that is there, and does nothing otherwise. */
  lemma KillForces(def: Def, s: Sys)
    requires Safe(def, s) && Enabled(s, KillFires)
    ensures var s' := Step(def, s, KillFires);
      && !s'.killArmed
      && s'.log == s.log + (if s.live != {} || s.exits != [] then [Signalled(s.curExec, true)] else [])
  {
  }

  /** A restart timer starts again the execution the child stands at, failed or reset. */
  lemma RestartResumes(def: Def, s: Sys, started: Option<nat>)
    requires Safe(def, s) && Enabled(s, RestartFires(started))
    ensures var s' := Step(def, s, RestartFires(started));
      && !s'.restartArmed && s'.curExec == s.curExec
      && s'.log == s.log + [if started.Some? then Started(s.curExec, started.value) else StartFailed(s.curExec)]
  {
  }
}
