# Verification of gdev's hard core

This project models the parts of gdev that hold algorithms, protocols or state machines,
and proves what they promise. Each source file that works by changing state has a class
or methods of the same shape, proved against a specification function or a step relation;
the theorems are about those functions, and about whole runs.

| Files | Component |
|---|---|
| `Scheduling`, `Digraph`, `Plan` | the bootstrap plan: resolving `after` / `before`, cycle detection, default steps |
| `Decimal`, `Version`, `VersionLaws`, `VersionText` | Debian version parsing and comparison (section 5.6.12 of the Debian Policy Manual), the order in the policy's own words, and the texts that denote a version |
| `Child`, `ChildOutcome` | the process manager's loop for one child, and what becomes of a child |
| `Server`, `WriterFailure` | the cache server's concurrent request loop, and the same with a failing writer |
| `Tee`, `Disk`, `Layers`, `Faults`, `Agreement`, `Answers`, `Backends`, `Gate`, `ActionEntry`, `RecordText` | the build cache: writing to two layers at once, one directory with faults, layered stores without and with faults, which entry a read then finds, what is answered, the front end, its closing, the on-disk record |
| `Deb822`, `DebLaws`, `Stanzas`, `Source` | stanzas (section 5.1 of the Debian Policy Manual) and apt sources |
| `LineText`, `TextEdit`, `Editors` | line editors and the loop that drives them |
| `Wrappers` | shared small types |

`dafny verify dfyconfig.toml` checks everything. Nothing of the original program was run.

## Main results

- **Plan.** After any history of accepted `AddSteps` and `Ready` calls, `Ready` answers true
  exactly when the added steps have a valid order, and then holds one; the greedy order is
  the least by insertion position, and a stuck plan has ordered exactly the steps that any
  valid partial order reaches. The cycle detector is exact, and a stuck plan without a
  cycle always has a step reported as waiting on a name that was never added. Default
  filling computes a least closure.
- **Versions.** The digit-by-digit comparison has the sign of a lexicographic order on
  parsed keys with unbounded numbers, and that order is the one the policy describes:
  fronts of non-digits compared lexically, a tilde before everything and even the end, and
  fronts of digits compared as numbers, in turns. Versions are totally preordered; the
  class of equal versions, the texts that denote a version and the inputs that make
  parsing panic are characterized exactly.
- **Child.** The code never clears its restart and kill timers when a command overtakes
  them, although child.go:115 and child.go:141 say it means to. Two exact results say what
  that costs. A run is safe (one process at most, no panic, nothing left behind) exactly
  when no restart timer fires while a process exists. And no timer can go off unasked, a
  restart of a child that has not failed or a kill of one nobody is stopping, exactly when
  no turn was a start of a process with a timer still armed or a stop of a failed child that should have
  cancelled its restart; before the command is given, `Risky` tells. Three witness runs show
  the failures. In safe runs the main process starts only after every init step, and the
  state and every status shown are exactly what has happened last: a child is done, for
  instance, exactly when it is a one-shot whose main process ended by itself with code 0.
- **Server.** Every run under every interleaving, cancellation included, is bounded; it ends
  with one fitting reply per request, the close reply last, for all inputs with a close
  request and the empty one, and for no others. When writing a response fails, nothing
  drains the channel any more: no run can then hang exactly when at most one request comes
  before the close request, and once the writer has failed it is settled by the responses
  still to come whether the server returns or waits for ever.
- **Cache.** A put followed by unrelated requests is answered with the bytes put, through
  any stack of layers. With faults in any file operation of any layer, no output is lost
  or wrong, a put that reports success is served, and no get is answered with a path to
  other bytes than its output id stands for; a partial file never shows. Under faults a
  read can only find a given entry exactly when no directory of the stack holds another
  one of its id; puts to a stack that writes all its directories establish that, so there
  the entry put is the one a get finds, if it finds any. Without faults, which of a
  result, a plain miss and an error is answered is told from the files alone. The tee never
  deadlocks and delivers the whole body to both sides; the backend is closed only when
  nobody uses it.
- **Text.** An edit of any text, ended by a newline or not, keeps every line outside the
  stretch it replaces, in order. Reading a stanza is told line by line, with folded values
  and comments. Round trips and second edits hold exactly under stated conditions on the
  input: well-formed contents, writable sources, kept lines without a carriage return at
  the end, own lines an editor recognizes among the lines they become in the text, and
  previous lines the matching automaton can track.

Where the code and its intent or documentation differ, the model follows the code:
`FromDeb822` rejects the key `Enabled` that `ToDeb822` always adds (`EnabledIsRejected`);
a client that ends its input without a close request may lose every reply
(`EndOfInputMayDropAll`); a stop that should cancel a restart does not
(`StopLeavesRestart`); a writer that fails can leave the server waiting for ever
(`NeverStuckIff`); a local directory that cannot be read lets an older remote entry
replace a newer local one, exactly where directories disagree (`ReadFindsIff`,
`ReadFaultRevertsEntry`); an appended line that is several lines is appended at every edit
(`RecognizedIff`); `ReplaceLine` may miss the first match
when it has two or more previous lines (`CompleteIffTrackable`); splicing content that
contains the end marker grows at every edit (`SpliceIdempotentIff`).

## Model

| member | source | states |
|---|---|---|
| `Scheduling.ReadyAfterAnyHistory` | addons/bootstrap/plan.go:24-84 | after any sequence of accepted calls, asking for readiness leaves nothing pending iff all steps ever added have a valid total order; then the order held is one, and it extends the order held before |
| `Scheduling.ReadyIffSchedulable` | addons/bootstrap/plan.go:76-84 | from any invariant state, resolution empties the pending list iff a valid order of the present steps exists |
| `Scheduling.ResolutionIsCanonical` | addons/bootstrap/plan.go:40-52 | among all valid partial orders extending what is ordered, the one built is lexicographically first by insertion position or extends the other |
| `Scheduling.OrderedIsReachable` | addons/bootstrap/plan.go:40-74 | in a stuck plan a step is ordered iff it occurs in some valid partial order, so the scan order does not matter |
| `Scheduling.StuckIsMaximal` | addons/bootstrap/plan.go:40-74 | no valid partial order contains a step a stuck plan left pending |
| `Scheduling.ResolveAllSound` | addons/bootstrap/plan.go:40-52 | resolution keeps the invariant and the multiset of steps, extends the order and ends stuck |
| `Scheduling.CompleteIsValidOrder` | addons/bootstrap/plan.go:81-84 | with nothing pending, every `after` target is present and earlier and every `before` target in the plan is later |
| `Scheduling.ValidOrderIsPartial` | addons/bootstrap/plan.go:54-74 | every valid total order can be placed step by step under the code's own placing rule |
| `Scheduling.HistoryInv` | addons/bootstrap/plan.go:24-84 | every reachable plan has unique names and a validly ordered prefix |
| `Scheduling.HistoryKeepsSteps` | addons/bootstrap/plan.go:24-84 | ordered plus pending is always a permutation of the steps accepted |
| `Scheduling.AddAllKeepsInv` | addons/bootstrap/plan.go:24-38 | adding keeps the invariant and the order, also when it stops at a refused step |
| `Scheduling.AddAllTakes` | addons/bootstrap/plan.go:24-38 | the steps before the first refused one are added in order; a name that is there already is the reason before a late `before` list |
| `BootstrapPlan.Plan.constructor` | addons/bootstrap/plan.go:20-22 | a new plan is valid and empty |
| `BootstrapPlan.Plan.AddSteps` | addons/bootstrap/plan.go:24-38 | adds the steps before the first refused one and reports which was refused and why |
| `BootstrapPlan.Plan.ResolveOne` | addons/bootstrap/plan.go:54-74 | places the step iff its `after` names are ordered and no pending step wants to come before it |
| `BootstrapPlan.Plan.TryResolveAll` | addons/bootstrap/plan.go:40-52 | the nested loop with restart computes the resolution the theorems are about |
| `BootstrapPlan.Plan.Ready` | addons/bootstrap/plan.go:81-84 | true iff the steps in the plan have a valid order; the order held is then one |
| `BootstrapPlan.Plan.BuildWaitGraph` | addons/bootstrap/plan.go:134-158 | the graph has an edge exactly where a step waits on another through either kind of constraint |
| `BootstrapPlan.Plan.DebugCircularDeps` | addons/bootstrap/plan.go:133-191 | true iff the waiting relation has a cycle, in every iteration order |
| `Digraph.FindCycles` | addons/bootstrap/plan.go:159-190 | the search over one shared visited set answers true iff the graph has a directed cycle |
| `Digraph.Visit` | addons/bootstrap/plan.go:161-180 | a hit is a cycle; as long as none was met, everything visited off the stack is finished |
| `Digraph.FinishedHasNoCycle` | addons/bootstrap/plan.go:159-190 | a finishing order that covers the graph rules out every cycle |
| `Digraph.ClosedSetHasCycle` | addons/bootstrap/plan.go:159-190 | a finite set in which everyone waits on a member contains a cycle |
| `BootstrapPlan.WaitGraphCycles` | addons/bootstrap/plan.go:133-191 | the graph has a cycle iff the plan waits in a circle |
| `BootstrapPlan.StuckHasCause` | addons/bootstrap/plan.go:119-121 | a stuck plan without a cycle has a pending step that waits on a name never added |
| `BootstrapPlan.ReportNames` | addons/bootstrap/plan.go:193-212 | a name is in the report under a step iff that step is pending, wants to come after it, and it is not in the order |
| `BootstrapPlan.Plan.DebugMissingDeps` | addons/bootstrap/plan.go:193-212 | one entry per pending step with unmet names, in pending order |
| `BootstrapPlan.Plan.Prepare` | addons/bootstrap/plan.go:111-131 | blocked iff no valid order exists, without actions iff no step was added, runnable otherwise; says circular iff it is, and otherwise its report names a missing step |
| `BootstrapPlan.Plan.AddDefaultSteps` | addons/bootstrap/plan.go:239-273 | terminates; adds only needed default steps and, unless refused, reaches the least closed set; succeeds iff no needed step must be refused |
| `BootstrapPlan.Plan.Fill` | addons/bootstrap/plan.go:240-251 | afterwards every referenced name with a factory is in the plan; reports whether anything was added |
| `BootstrapPlan.Plan.FillOrdered` | addons/bootstrap/plan.go:257-262 | fills the `before` names of all ordered steps |
| `BootstrapPlan.Plan.FillPending` | addons/bootstrap/plan.go:263-271 | fills both kinds of names of the steps pending when the pass began |
| `BootstrapPlan.FilledIsClosed` | addons/bootstrap/plan.go:239-273 | a pass that adds nothing has reached a closed set |
| `BootstrapPlan.AddsNothingUnreferenced` | addons/bootstrap/plan.go:236-238 | every default step added is referred to by a step of the final plan |
| `BootstrapPlan.DefaultsAreIdempotent` | addons/bootstrap/plan.go:239-273 | growing a closed plan by needed defaults changes nothing |
| `BootstrapPlan.AddedStepAccepted` | addons/bootstrap/plan.go:29-34 | when the closure is reached, no needed default step was one the plan must refuse |
| `DebianVersion.Verrevcmp` | addons/bootstrap/apt/dpkg/compare.go:140-189 | terminates on all inputs; its sign is the lexicographic comparison of the two parsed keys |
| `DebianVersion.CompareDigits` | addons/bootstrap/apt/dpkg/compare.go:170-185 | run length and first difference decide as the unbounded numbers do, and equal numbers leave both cursors behind them |
| `DebianVersion.SkipZeros` | addons/bootstrap/apt/dpkg/compare.go:164-169 | skipping zeros keeps the number and what follows it |
| `DebianVersion.NextRune` | addons/bootstrap/apt/dpkg/compare.go:210-216 | the cursor then stands on the first byte, or at the end |
| `DebianVersion.CompareKeysAntisymmetric` | addons/bootstrap/apt/dpkg/compare.go:140-189 | swapping the keys flips the sign |
| `DebianVersion.CompareKeysTransitive` | addons/bootstrap/apt/dpkg/compare.go:140-189 | the order of keys is transitive, strictly so when one step is strict |
| `DebianVersion.EqualIffSameNormal` | addons/bootstrap/apt/dpkg/compare.go:140-208 | two keys compare equal iff they agree up to trailing zeros |
| `DebianVersion.CompareV` | addons/bootstrap/apt/dpkg/compare.go:49-71 | epoch, then upstream, then revision; the early equality test agrees with that order |
| `DebianVersion.EqualVersions` | addons/bootstrap/apt/dpkg/compare.go:49-71 | 0 iff the epochs agree and both parts have the same normalized key |
| `DebianVersion.OrderIsAntisymmetric` | addons/bootstrap/apt/dpkg/compare.go:49-71 | reflexive, and swapping the versions flips the sign |
| `DebianVersion.OrderIsTransitive` | addons/bootstrap/apt/dpkg/compare.go:49-71 | transitive; equal across iff equal at both steps |
| `DebianVersion.StringToVersion` | addons/bootstrap/apt/dpkg/compare.go:79-138 | the updating parser returns what the parsing function says, error by error |
| `DebianVersion.CheckFormat` | addons/bootstrap/apt/dpkg/compare.go:114-136 | the first violated format rule is the one reported |
| `DebianVersion.Compare` | addons/bootstrap/apt/dpkg/compare.go:29-41 | fails iff an argument does not parse, otherwise the order of the two versions |
| `DebianVersion.ParseInvertsRender` | addons/bootstrap/apt/dpkg/compare.go:79-138 | a version is the parse of its rendering, and of any text at all, iff it is denotable |
| `DebianVersion.ParsedIsDenotable` | addons/bootstrap/apt/dpkg/compare.go:91-137 | whatever parses has a 64-bit non-negative epoch, an upstream version starting with a digit, and allowed characters |
| `DebianVersion.RenderedParses` | addons/bootstrap/apt/dpkg/compare.go:79-138 | a colon in the upstream version or a dash in it does not confuse the separators |
| `DebianVersion.PanicsExactlyOnMinusZero` | addons/bootstrap/apt/dpkg/compare.go:91-112 | the slice panic happens iff the text is `-`, zeros, a colon, and no further `-` |
| `DebianVersionLaws.PartOrderIsPolicy` | addons/bootstrap/apt/dpkg/compare.go:140-208 | the order of parts is the policy's: fronts of non-digits lexically, fronts of digits as numbers, in turns |
| `DebianVersionLaws.AgainstEnd` | addons/bootstrap/apt/dpkg/compare.go:146-161 | behind any common front a tilde sorts before the end, every other non-digit behind it |
| `DebianVersionLaws.AgainstNonDigit` | addons/bootstrap/apt/dpkg/compare.go:191-208 | two different non-digits decide: the tilde first, then letters by code, then other symbols by code |
| `DebianVersionLaws.AgainstDigit` | addons/bootstrap/apt/dpkg/compare.go:146-161 | where a number begins, a tilde sorts before it and every other non-digit behind it |
| `DebianVersionLaws.AgainstNumber` | addons/bootstrap/apt/dpkg/compare.go:164-185 | numbers decide by value, a missing one counting as zero; equal ones leave it to what follows |
| `DebianVersionLaws.EpochDecides` | addons/bootstrap/apt/dpkg/compare.go:55-61 | a later epoch is a later version whatever else |
| `DebianVersionLaws.UpstreamDecides` | addons/bootstrap/apt/dpkg/compare.go:63-70 | within an epoch the upstream part decides, and the revision only where it does not |
| `DebianVersionLaws.SuffixedVersion` | addons/bootstrap/apt/dpkg/compare.go:49-71 | a version with a suffix from a tilde on is older than the one without, with any other suffix newer, whatever the revisions |
| `DebianVersionLaws.SuffixedRevision` | addons/bootstrap/apt/dpkg/compare.go:49-71 | the same for revisions, as backports use it |
| `DebianVersionLaws.PartingVersions` | addons/bootstrap/apt/dpkg/compare.go:49-71 | two upstream versions that part at a non-digit are ordered by it |
| `DebianVersionText.ParsesIff` | addons/bootstrap/apt/dpkg/compare.go:79-138 | a text denotes a version iff the version is well formed and the text, blanks aside, spells it: epoch and colon or none for 0, upstream part, dash and revision or none for `0` |
| `DebianVersionText.SpelledIsChecked` | addons/bootstrap/apt/dpkg/compare.go:89-113 | where the separators stand where they are read, the parts checked are those spelled |
| `DebianVersionText.PartsAreRefused` | addons/bootstrap/apt/dpkg/compare.go:114-137 | which of the four reasons parts are refused for, in order |
| `DebianVersionText.FrontIsRefused` | addons/bootstrap/apt/dpkg/compare.go:89-100 | an epoch is refused as no number or as negative iff the text before the first colon is |
| `DebianVersionText.EmptyIsRefused` | addons/bootstrap/apt/dpkg/compare.go:82-87 | refused as empty iff there is nothing but blanks |
| `DebianVersionText.BlanksAreStripped` | addons/bootstrap/apt/dpkg/compare.go:82-83 | blanks around a text do not count |
| `DebianVersionText.AsciiCharacters` | addons/bootstrap/apt/dpkg/compare.go:18-21 | the ASCII characters each part may have, written out |
| `Decimal.LongerNumberIsLarger` | addons/bootstrap/apt/dpkg/compare.go:177-182 | without leading zeros, the longer digit run is the larger number |
| `Decimal.LeadingZero` | addons/bootstrap/apt/dpkg/compare.go:164-169 | a leading zero does not change a number |
| `Decimal.ParseFormat` | addons/gocache/action-entry.go:22-36 | a printed 64-bit integer parses back |
| `Decimal.ParseIntIff` | addons/bootstrap/apt/dpkg/compare.go:91-100 | a number is parsed from exactly a numeral of its value with an optional sign, within the int64 range |
| `Decimal.Int64FitsTwentyColumns` | addons/gocache/disk-storage-backend.go:86-91 | every 64-bit integer, sign included, fits 20 columns |
| `ManagedChild.RunSafeIff` | addons/pm/server/child.go:66-265 | a run is safe at every moment iff no restart timer fires while a process exists |
| `ManagedChild.StepSafeIff` | addons/pm/server/child.go:93-265 | the same for one turn |
| `ManagedChild.DisciplinedRunIsSafe` | addons/pm/server/child.go:93-265 | if timers fire only in the states that arm them: at most one process, the exit channel never blocks, no panic or odd branch, and delete leaves no process |
| `ManagedChild.StartSafeIff` | addons/pm/server/child.go:324-388 | starting keeps the process count right iff no process and no exit notice is left over |
| `ManagedChild.CommandSafe` | addons/pm/server/child.go:97-134 | every command keeps a safe child safe |
| `ManagedChild.ExitSafe` | addons/pm/server/child.go:143-212 | every exit notice keeps a safe child safe |
| `ManagedChild.MainStartsAfterInits` | addons/pm/server/child.go:100-216 | the log shows inits 0..n-1 ended with code 0, in order, since the last accepted start, before any start of the main process |
| `ManagedChild.RunKeepsOrder` | addons/pm/server/child.go:100-216 | nothing is ever started before its turn, however many failures, restarts and stops there are |
| `ManagedChild.ExitKeepsOrder` | addons/pm/server/child.go:143-212 | an exit notice starts the next execution only after the one before it succeeded |
| `ManagedChild.StepKeepsOrder` | addons/pm/server/child.go:100-216 | one turn keeps that |
| `ManagedChild.CompletedMeans` | addons/pm/server/child.go:170-175 | the count of completed inits stands for actual successes at increasing positions of the log |
| `ManagedChild.StopIsFinalIff` | addons/pm/server/child.go:97-216 | a turn leaves a stopped or done child as it is, with nothing started, iff it is neither a start command nor a restart timer |
| `ManagedChild.StoppingEndsInStopped` | addons/pm/server/child.go:162-168 | once the process of a stopping child ends, the child is stopped and set back to its first step |
| `ManagedChild.OvertakenRestartDoublesProcesses` | addons/pm/server/child.go:213-216 | witness: a start overtakes an armed restart, and two processes live |
| `ManagedChild.RunTrustedIff` | addons/pm/server/child.go:97-142 | over a whole run no timer could ever go off unasked iff no turn was a start that succeeded with a timer armed, or a stop of a failed child with its restart armed |
| `ManagedChild.RiskyIff` | addons/pm/server/child.go:97-135 | before a command is given: some outcome of it lets a timer go off unasked next iff the command is risky |
| `ManagedChild.StepTimelyIff` | addons/pm/server/child.go:95-216 | a turn keeps every armed timer in a state it belongs to iff it is not such a command |
| `ManagedChild.SpoiledIsNotTrusted` | addons/pm/server/child.go:97-216 | after such a command an unasked timer is the next possible turn |
| `ManagedChild.NoRiskNoSurprise` | addons/pm/server/child.go:66-265 | who gives no risky command has a safe run in which no timer acts unasked |
| `ManagedChild.StaleKillStopsNewRun` | addons/pm/server/child.go:136-142 | witness: a kill timer of an earlier stop stops a later run (exactly when that can happen: `RunTrustedIff`) |
| `ManagedChild.StopLeavesRestart` | addons/pm/server/child.go:113-116 | witness: a stop of a failed child leaves its restart armed, and the stopped child is started |
| `ChildOutcomes.RunTells` | addons/pm/server/child.go:97-216 | over every run in which no restart overtakes a process, each state is reached exactly by what happened last: done, stopped, failed, failed in an init step, running, stopping |
| `ChildOutcomes.RunShows` | addons/pm/server/child.go:97-216 | and each status shown is what became last of that execution: not started, failed to start, running under its pid, told to stop, ended with its code |
| `ChildOutcomes.RunArms` | addons/pm/server/child.go:169-216 | without risky commands a restart is under way exactly after a failure by itself of a child that is to be restarted |
| `ChildOutcomes.RunningEnds` | addons/pm/server/child.go:188-209 | a main process that ends leaves the child done iff it is a one-shot and the code is 0, stopped iff it is neither a one-shot nor restarted and the code is 0, failed otherwise; a restart is armed iff it is neither |
| `ChildOutcomes.InitEnds` | addons/pm/server/child.go:169-187 | an init step that succeeds is followed by the next execution; one that fails leaves its error, with a restart unless there are none |
| `ChildOutcomes.StartBegins` | addons/pm/server/child.go:100-109 | a start begins at the first execution iff nothing runs, and is ignored otherwise |
| `ChildOutcomes.StopStops` | addons/pm/server/child.go:110-127 | a stop asks a process to terminate and arms the kill timer; without a process the child stands stopped at the first execution |
| `ChildOutcomes.DeleteEnds` | addons/pm/server/child.go:128-134 | a delete ends the loop iff the child is stopped or done |
| `ChildOutcomes.KillForces` | addons/pm/server/child.go:136-142 | the kill timer forces out a process iff there is one |
| `ChildOutcomes.RestartResumes` | addons/pm/server/child.go:213-216 | a restart starts again the execution the child stands at |
| `ChildOutcomes.StepTells` | addons/pm/server/child.go:97-216 | one turn keeps the state and what happened last in step |
| `ChildOutcomes.StepShows` | addons/pm/server/child.go:97-216 | one turn keeps the statuses and what became last of each execution in step |
| `ManagedChild.Child.constructor` | addons/pm/server/child.go:305-318 | the initial status, nothing running |
| `ManagedChild.Child.StartExec` | addons/pm/server/child.go:324-388 | running or error state by index and outcome; an index of -1 panics |
| `ManagedChild.Child.Signal` | addons/pm/server/child.go:390-413 | the current execution is marked stopping |
| `ManagedChild.Child.HandleCommand` | addons/pm/server/child.go:97-134 | start, stop and delete, state by state |
| `ManagedChild.Child.ReapProcess` | addons/pm/server/child.go:147-161 | the current slot is ended with its code and no process is current |
| `ManagedChild.Child.HandleExit` | addons/pm/server/child.go:143-212 | the next init, the main process, stop, done, failure and restart, case by case |
| `ManagedChild.Child.Handle` | addons/pm/server/child.go:95-216 | one turn of the loop is one step of the machine |
| `ManagedChild.Child.Run` | addons/pm/server/child.go:66-265 | the loop reaches the state its events lead to; deleted without a process left unless a restart overtook one |
| `CacheServer.EveryRunEndsAnswered` | addons/gocache/server.go:48-177 | with a close request, every interleaving is bounded, can always go on until it returns, and returns with every earlier request answered once and the close reply last |
| `CacheServer.ReturnedMeansAnswered` | addons/gocache/server.go:69-91 | the output of a returned server is capabilities, a permutation of fitting replies, the close reply |
| `CacheServer.RepliesTell` | addons/gocache/server.go:48-137 | in the output of a returned server an unknown command is refused, a put iff the server announced none, a get never, and only the close request is answered as closed, last |
| `CacheServer.NoDeadlock` | addons/gocache/server.go:48-177 | some goroutine can always move before the server has returned or met the end of its input |
| `CacheServer.RunsAreBounded` | addons/gocache/server.go:48-177 | each step uses up work, at most 6 steps a request and 8 more |
| `CacheServer.StepKeepsInv` | addons/gocache/server.go:68-177 | every step of reader, handlers and writer keeps: every request read is answered, given up after a cancellation, or still worked on, exactly once, and nothing follows the close reply |
| `CacheServer.RunKeepsInv` | addons/gocache/server.go:48-177 | the same for whole runs |
| `CacheServer.NotAbandoned` | addons/gocache/server.go:69-75 | a server with a close request to come never stops at the end of its input |
| `CacheServer.AnsweredIffClosed` | addons/gocache/server.go:48-177 | every run that can go no further has answered every request exactly once iff the input is empty or holds a close request |
| `CacheServer.EndOfInputMayDropAll` | addons/gocache/server.go:49-75 | for every input without a close request, some run ends for good with nothing but the capabilities written, as returning cancels the handlers and the writer |
| `CacheServer.CancelEverything` | addons/gocache/server.go:49-50 | after the cancellation every handler and the writer can stop where they are |
| `CacheServerFailure.NeverStuckIff` | addons/gocache/server.go:48-177 | with a writer that may fail at any response, no run ends waiting for ever iff at most one request comes before the first close request, or none is a close request |
| `CacheServerFailure.FailureStuckIff` | addons/gocache/server.go:48-177 | once the writer has failed, a run that can go no further has returned iff at most one response was in the channel or still to come then |
| `CacheServerFailure.HeadlessEnd` | addons/gocache/server.go:69-91 | where a server without a writer can go no further it has returned iff what was left fits the channel |
| `CacheServerFailure.LeftIsFixed` | addons/gocache/server.go:94-157 | without a writer, the number of responses in the channel or to come never changes |
| `CacheServerFailure.LeftAtFailure` | addons/gocache/server.go:159-177 | the response a writer fails on is none of them |
| `CacheServerFailure.EarlyFailure` | addons/gocache/server.go:159-177 | the writer may fail on its first response with all others still to come |
| `CacheServerFailure.TurnKeeps` | addons/gocache/server.go:48-177 | the invariant of the server, and what is left of it after the failure, are kept by every turn |
| `CacheServerFailure.RunToHalt` | addons/gocache/server.go:48-177 | every run with a failing writer can be carried on until it halts |
| `TeedWrite.EveryWriteDelivers` | addons/gocache/layered-backend.go:154-185 | no interleaving deadlocks or runs for ever, either side giving up early and the body failing included; the remote has always seen a prefix of what was read, and in the end both sides exactly that |
| `TeedWrite.NoDeadlock` | addons/gocache/layered-backend.go:166-184 | some step other than a failure is always possible |
| `TeedWrite.StepKeepsInv` | addons/gocache/layered-backend.go:160-184 | bytes read are those the remote received plus those offered |
| `TeedWrite.RunKeepsInv` | addons/gocache/layered-backend.go:154-185 | the same, with the step bound, for whole runs |
| `TeedWrite.EveryOutcomeHappens` | addons/gocache/layered-backend.go:154-185 | the body may fail after any number of bytes and either layer give up before the first, and some run still returns with both sides given all that was read |
| `CacheLayers.GetAfterPut` | addons/gocache/storage-fronend.go:92-175 | after a successful put with a body and any requests not putting that action id, a get returns the same output id, size and time and a path to exactly the bytes put |
| `CacheLayers.LocalAloneServes` | addons/gocache/layered-backend.go:66-131 | after a successful get through a writable local layer, that layer alone gives the same answer |
| `CacheLayers.WriteChangesOneKey` | addons/gocache/layered-backend.go:136-151 | writing an entry succeeds and changes the overlay at its id and nowhere else |
| `CacheLayers.ReadKeepsOverlay` | addons/gocache/layered-backend.go:113-131 | a read returns the most local entry, leaves the overlay as it was, and copies a remote hit to the local layer |
| `CacheLayers.ReadCopiesEntry` | addons/gocache/layered-backend.go:119-127 | copying a remote entry to the local layer is invisible in the overlay |
| `CacheLayers.WriteBodyPutsContent` | addons/gocache/layered-backend.go:154-185 | succeeds iff the size is the announced one; then the local path holds the bytes; entries and other outputs stay |
| `CacheLayers.OpenFindsContent` | addons/gocache/layered-backend.go:187-198 | opens the content iff some layer has it |
| `CacheLayers.CheckFindsContent` | addons/gocache/layered-backend.go:66-90 | fails iff no layer has the output at the size asked for; a found path holds it; a writable stack then has it locally |
| `CacheLayers.ServedIsFound` | addons/gocache/storage-fronend.go:92-136 | a stack with the entry and the output at home answers with them |
| `CacheLayers.GetKeeps` | addons/gocache/storage-fronend.go:92-136 | a get changes no entry and loses no output, and what it answers is the overlay's entry |
| `CacheLayers.PutKeeps` | addons/gocache/storage-fronend.go:139-175 | a put succeeds iff its body, if any, has the announced size; it changes one key or, failing, none |
| `CacheLayers.KeepsServing` | addons/gocache/storage-fronend.go:92-175 | requests that do not put an id keep it served |
| `CacheAnswers.GetAnswers` | addons/gocache/storage-fronend.go:92-136 | told from the files: a result for an entry whose output is there with its size and can be handed out, a plain miss where the home has no file and nobody an entry or the output cannot be handed out, an error in all other cases |
| `CacheAnswers.NoFileIsMiss` | addons/gocache/storage-fronend.go:98-106 | where no directory has a file for the id, a plain miss, and nothing changes |
| `CacheAnswers.OverlayTells` | addons/gocache/layered-backend.go:113-131 | the most local entry is found; without any, the home's file decides between a miss and an error |
| `CacheAnswers.DiskReads` | addons/gocache/disk-storage-backend.go:95-113 | no file is no error; a file that is no entry of the id is one |
| `CacheAnswers.DiskChecks` | addons/gocache/disk-storage-backend.go:117-128 | an absent output is told from one of another size |
| `CacheAnswers.RestIsIgnored` | addons/gocache/disk-storage-backend.go:101-105 | what follows a record in its file is not read |
| `CacheAnswers.CheckReaches` | addons/gocache/layered-backend.go:66-90 | a path is found iff some layer has the output at its size and it can be handed out from where it is or copied |
| `CacheAnswers.AnswersAreAtHome` | addons/gocache/storage-fronend.go:92-175 | whatever fails, every path answered is the output's in the most local directory, and a put has one iff it had a body |
| `CacheAnswers.BodyReachesAll` | addons/gocache/layered-backend.go:154-185 | a write that reports a path has reached every directory the stack writes, and the path leads to a file of the announced size |
| `CacheAnswers.EntryReachesAll` | addons/gocache/layered-backend.go:136-151 | a successful write of an entry has reached every directory the stack writes |
| `CacheAnswers.HitIsLocal` | addons/gocache/layered-backend.go:119-127 | a hit in a stack that writes its local layer has been copied there, whatever fails |
| `CacheAnswers.RemoteIsSpared` | addons/gocache/layered-backend.go:66-151 | without writing through, no request changes the remote directory |
| `CacheAnswers.ReadOnlyIsSpared` | addons/gocache/layered-backend.go:66-131 | a get leaves a read-only stack of two directories as it is |
| `CacheAnswers.OpensMostLocal` | addons/gocache/layered-backend.go:187-198 | an output is opened in the most local directory that has it |
| `CacheAnswers.OutputWrittenAgain` | addons/gocache/disk-storage-backend.go:130-172 | an output of the announced size that is not newer than the entry is left alone, any other is written anew iff the body has that size |
| `CacheFaults.FaultyRunIsHonest` | addons/gocache/storage-fronend.go:92-175 | over any run of requests with faults in any file operation of any layer: every output stays and is right, and each result answered points at exactly the bytes and size of its output id |
| `CacheFaults.FaultyGetIsHonest` | addons/gocache/storage-fronend.go:92-136 | the same for one get |
| `CacheFaults.FaultyPutServes` | addons/gocache/storage-fronend.go:139-175 | a put reported as stored is in the overlay and, with a body, served; one reported as failed has broken nothing |
| `CacheFaults.WriteActionStaysSound` | addons/gocache/layered-backend.go:136-151 | with a fault in either layer a sound store stays sound, and success means the entry is found |
| `CacheFaults.ReadActionStaysSound` | addons/gocache/layered-backend.go:113-131 | a read that fails anywhere, its copying included, leaves a sound store sound |
| `CacheFaults.WriteBodyStaysSound` | addons/gocache/layered-backend.go:154-185 | a path reported holds the whole content, whatever the other layer did |
| `CacheFaults.CheckBodyStaysSound` | addons/gocache/layered-backend.go:66-90 | a path found holds the whole content, also when it was copied from a faulty remote layer |
| `CacheFaults.OpenedIsContent` | addons/gocache/layered-backend.go:187-198 | what can be opened is the content |
| `CacheFaults.DoMay` | addons/gocache/storage-fronend.go:92-175 | the behaviour without faults is one of those with faults |
| `CacheFaults.ReadFaultRevertsEntry` | addons/gocache/layered-backend.go:113-131 | illustrates the only-if of `ReadFindsIff`: for any two entries of one id, a failing local read may replace the newer local one by the older remote one |
| `CacheFaults.FaultyPutAtMost` | addons/gocache/storage-fronend.go:139-175 | with faults anywhere, a put leaves what is found under every other id as it was, and under its own finds the old result or the new entry |
| `CacheFaults.WriteActionAtMost` | addons/gocache/layered-backend.go:136-151 | with a fault in either layer, each directory holds its old entries, or those and the new one |
| `CacheAgreement.ReadFindsIff` | addons/gocache/layered-backend.go:113-131 | every entry that a read with faults anywhere can find is `e` iff every directory of the stack holds `e` or nothing under that id |
| `CacheAgreement.DissentMayBeRead` | addons/gocache/layered-backend.go:113-131 | an entry against `e` in any directory is found by some read |
| `CacheAgreement.ReadKeepsAgreement` | addons/gocache/layered-backend.go:113-131 | a read of any id, its copying and faults included, keeps the directories agreed on `e` |
| `CacheAgreement.GetKeepsAgreement` | addons/gocache/storage-fronend.go:92-136 | so does a get, which answers with `e` and a path to its bytes if it answers with a result |
| `CacheAgreement.PutKeepsAgreement` | addons/gocache/storage-fronend.go:139-175 | so does a put of another id or of `e` itself, failing anywhere |
| `CacheAgreement.RunKeepsAgreement` | addons/gocache/storage-fronend.go:92-175 | the same over any faulty run that puts nothing else under that id |
| `CacheAgreement.WriteBringsAgreement` | addons/gocache/layered-backend.go:136-151 | writing an entry with success in a stack that writes all its directories makes them agree on it |
| `CacheAgreement.FaultyGetAfterPut` | addons/gocache/storage-fronend.go:92-175 | after a put that reported success in such a stack, or in one that agreed before, any later get with faults anywhere answers with that entry and a path to exactly the bytes put, or with no result |
| `CacheBackends.Backend.FromDisk` | addons/gocache/disk-storage-backend.go:49-59 | a backend over one directory shows its files and is faultless iff the directory is |
| `CacheBackends.Backend.FromLayers` | addons/gocache/layered-backend.go:17-63 | a backend over two backends with one of the three write modes |
| `CacheBackends.Backend.WriteActionEntry` | addons/gocache/layered-backend.go:136-151 | writes both layers even if the first fails, and reports both; does what the model allows under faults, and without faults exactly what it says |
| `CacheBackends.Backend.ReadActionEntry` | addons/gocache/layered-backend.go:113-131 | local, then remote with copying; a failed copy fails the read; two misses give the local error; with and without faults |
| `CacheBackends.Backend.OpenOutputFile` | addons/gocache/layered-backend.go:187-198 | the local file, else the remote one; with and without faults |
| `CacheBackends.Backend.WriteOutput` | addons/gocache/layered-backend.go:154-185 | both layers get the whole body; the path is the local one; with and without faults |
| `CacheBackends.Backend.CheckOutputFile` | addons/gocache/layered-backend.go:66-90 | local, else copied from remote, else the local error; known but unusable where nothing can be written; with and without faults |
| `CacheBackends.Backend.FetchFromRemote` | addons/gocache/layered-backend.go:72-89 | the copying half of that |
| `CacheBackends.StorageFrontend.constructor` | addons/gocache/storage-fronend.go:41-46 | open, nobody inside |
| `CacheBackends.StorageFrontend.Use` | addons/gocache/storage-fronend.go:59-67 | refused iff closing, counted otherwise |
| `CacheBackends.StorageFrontend.Release` | addons/gocache/storage-fronend.go:59-67 | counts one user out |
| `CacheBackends.StorageFrontend.BeginClose` | addons/gocache/storage-fronend.go:70-74 | closing from then on |
| `CacheBackends.StorageFrontend.Get` | addons/gocache/storage-fronend.go:92-136 | refused when closing, otherwise the get the theorems are about, with and without faults; a plain miss that changes nothing where a faultless backend has no file for the id; the count is as before |
| `CacheBackends.StorageFrontend.Put` | addons/gocache/storage-fronend.go:139-175 | refused when closing, otherwise the put the theorems are about, with and without faults; the count is as before |
| `FrontendGate.UsersMeetOpenBackend` | addons/gocache/storage-fronend.go:59-89 | in every interleaving no user ever holds a closed backend |
| `FrontendGate.ClosingDrains` | addons/gocache/storage-fronend.go:70-78 | once closing, the count never rises |
| `FrontendGate.StepKeepsInv` | addons/gocache/storage-fronend.go:59-89 | the count is the number of users, and closed means none |
| `FrontendGate.RunKeepsInv` | addons/gocache/storage-fronend.go:59-89 | the same for whole runs |
| `FrontendGate.CloserFinishes` | addons/gocache/storage-fronend.go:70-89 | whoever waits to close can, once those inside have left, and closes the backend |
| `FrontendGate.AdmittedIffOpen` | addons/gocache/storage-fronend.go:59-67 | a client is let in iff nobody has begun to close |
| `CacheDisk.NamesAreDistinct` | addons/gocache/disk-storage-backend.go:79-84 | file names agree iff id and kind do, and none is a temporary name |
| `CacheDisk.HexInjective` | addons/gocache/disk-storage-backend.go:79-84 | different ids print differently |
| `CacheDisk.NameLayout` | addons/gocache/disk-storage-backend.go:79-84 | a file is named by the id in hexadecimal digits and its kind, in a directory named by the first two of them |
| `CacheDisk.ReadAfterWrite` | addons/gocache/disk-storage-backend.go:95-205 | a written hash entry is read back and no other entry changes |
| `CacheDisk.WritesAreSeparate` | addons/gocache/disk-storage-backend.go:130-205 | outputs and entries do not disturb each other |
| `CacheDisk.DiskDir.WriteThroughTemporary` | addons/gocache/disk-storage-backend.go:143-169 | with a fault at any step, every state passed through shows the old files, or those and the complete accepted file |
| `CacheDisk.DiskDir.CopyInto` | addons/gocache/disk-storage-backend.go:153-157 | copying piece by piece into the temporary file is never visible |
| `CacheDisk.DiskDir.ReadActionEntry` | addons/gocache/disk-storage-backend.go:95-113 | absent, malformed or of another id, or the entry; an error where reading fails |
| `CacheDisk.DiskDir.CheckOutputFile` | addons/gocache/disk-storage-backend.go:117-128 | absent, wrong size or present; an error where looking fails |
| `CacheDisk.DiskDir.OpenOutputFile` | addons/gocache/disk-storage-backend.go:174-177 | the bytes under the final name, if any; nothing where opening fails |
| `CacheDisk.DiskDir.WriteOutputFile` | addons/gocache/disk-storage-backend.go:130-172 | at no moment does the final name show a partial or wrong-sized file; a failure leaves the visible files as they were |
| `CacheDisk.DiskDir.WriteActionEntryFile` | addons/gocache/disk-storage-backend.go:179-205 | the same for entries |
| `ActionRecord.HashEntryRoundTrip` | addons/gocache/action-entry.go:16-46 | for 32-byte ids and all 64-bit sizes and times the record has exactly the fixed size and parses back |
| `ActionRecord.ParseInvertsFormat` | addons/gocache/action-entry.go:16-46 | the scanner inverts the printer for all non-empty ids |
| `ActionRecord.WrittenSize` | addons/gocache/action-entry.go:35-46 | a write is accepted iff the ids take 64 bytes together |
| `ActionRecord.RecordLayout` | addons/gocache/action-entry.go:35-38 | where the fields of a record stand: id, output id, size and time, numbers set right |
| `ActionRecord.HexDigits` | addons/gocache/action-entry.go:35-38 | two small hexadecimal digits a byte, the high half first |
| `ActionRecordText.ParseIff` | addons/gocache/action-entry.go:16-33 | the bytes read as an entry are exactly those of the record's size and form |
| `Deb822.FormatDeb822Stanza` | addons/bootstrap/apt/deb822.go:24-56 | writes the first keys in their order, then the others in increasing order, without empty values, in every map iteration order |
| `Deb822.FormattedIsUnique` | addons/bootstrap/apt/deb822.go:29-55 | there is only one such text |
| `Deb822.SortSorts` | addons/bootstrap/apt/deb822.go:49 | sorting distinct keys gives the same keys, increasing |
| `Deb822.IncreasingIsUnique` | addons/bootstrap/apt/deb822.go:49 | one increasing sequence per set of keys |
| `Deb822.ParseDeb822Stanza` | addons/bootstrap/apt/deb822.go:65-111 | the reading loop computes the parsing function, error by error |
| `Deb822.RoundTripIff` | addons/bootstrap/apt/deb822.go:24-111 | a content is the parse of its formatted stanza iff its keys are well formed and its values non-empty, trimmed, single lines |
| `Deb822.ParseFormatted` | addons/bootstrap/apt/deb822.go:24-111 | with well-formed keys and single-line values, the non-empty values come back trimmed |
| `Deb822.ParsedIsClean` | addons/bootstrap/apt/deb822.go:85-109 | whatever is parsed has well-formed keys and single-line values, continuation lines included |
| `Deb822.LessDecided` | addons/bootstrap/apt/deb822.go:49 | keys are sorted by their first different character, a front before what continues it |
| `Deb822Laws.KeyedLine` | addons/bootstrap/apt/deb822.go:95-109 | a line with a key sets it to its trimmed value, or is refused if it is there |
| `Deb822Laws.FoldedValue` | addons/bootstrap/apt/deb822.go:80-109 | a value folded over any number of lines, with comments between, comes back joined by blanks |
| `Deb822Laws.LoneContinuation` | addons/bootstrap/apt/deb822.go:86-89 | a continuation with no key line before it is refused |
| `Deb822Laws.CommentLine` | addons/bootstrap/apt/deb822.go:80-83 | a comment changes nothing |
| `Deb822Laws.UnkeyedLine` | addons/bootstrap/apt/deb822.go:95-102 | a line without a colon, or with white space before it, is refused for that |
| `Deb822Laws.ForeignLine` | addons/bootstrap/apt/deb822.go:84-85 | a line that begins with a character that is not ASCII is refused |
| `Deb822Laws.ErrorStays` | addons/bootstrap/apt/deb822.go:65-111 | an error stays, whatever follows |
| `Deb822Laws.UnendedLine` | addons/bootstrap/apt/deb822.go:69-79 | whether a newline ends the last line makes no difference |
| `StanzaFile.Deb822SplitStanza` | addons/bootstrap/apt/deb822.go:117-129 | the text up to the first empty line, with its newline, or at the end all that is left; asks for more iff there is neither |
| `StanzaFile.CutIsStable` | addons/bootstrap/apt/deb822.go:117-129 | a stanza cut from part of the data is the one cut from all of it |
| `StanzaFile.StanzasOfFile` | addons/bootstrap/apt/deb822.go:113-129 | stanzas joined by empty lines are cut apart again |
| `StanzaFile.FileRoundTrip` | addons/bootstrap/apt/deb822.go:24-129 | any number of well-formed contents, formatted and joined, are read back one by one |
| `AptSource.SourceRoundTripIff` | addons/bootstrap/apt/source.go:59-119 | defaulted, written without `Enabled`, parsed and converted, a source comes back iff its lists are words, its architectures have no commas and make one value, and its key path is one trimmed line |
| `AptSource.WordsAreWritable` | addons/bootstrap/apt/source.go:65-92 | lists of words meet that condition |
| `AptSource.EnabledIsRejected` | addons/bootstrap/apt/source.go:87-115 | written with `Enabled` and parsed, no source converts back, whatever its fields; a writable source's text does parse |
| `AptSource.LastKeyIsParsed` | addons/bootstrap/apt/deb822.go:65-111 | the key of the last line written is in whatever is parsed |
| `AptSource.WrittenByDefault` | addons/bootstrap/apt/source.go:59-92 | every source is written as enabled, and with the type `deb` unless it has others |
| `AptSource.FromDeb822` | addons/bootstrap/apt/source.go:98-119 | in every map iteration order: the source the keys denote, or an error iff some key is unknown |
| `AptSource.FieldsOfJoin` | addons/bootstrap/apt/source.go:69-78 | words joined by blanks come apart again |
| `AptSource.SplitOfJoin` | addons/bootstrap/apt/source.go:81-110 | pieces without the separator come apart again |
| `AptSource.PlainIsDenoted` | addons/bootstrap/apt/source.go:65-119 | the keys of a writable source denote it |
| `AptSource.PlainIsWellFormed` | addons/bootstrap/apt/source.go:65-92 | and a stanza can carry them |
| `AptSource.Source.constructor` | addons/bootstrap/apt/source.go:11-27 | a source with the given fields |
| `AptSource.Source.Defaults` | addons/bootstrap/apt/source.go:59-63 | an empty list of types becomes `deb`, nothing else changes |
| `AptSource.Source.ToDeb822` | addons/bootstrap/apt/source.go:65-92 | the keys of the defaulted source and `Enabled`; the object keeps its defaults |
| `LineText.ScanWritten` | addons/bootstrap/textedit/edit-file.go:200-217 | scanning written lines, whatever they hold, gives back the pieces between their newlines, each without a carriage return at its end |
| `LineText.ScanWrittenLast` | addons/bootstrap/textedit/edit-file.go:200-202 | a last line without a newline is scanned too |
| `LineText.TextHasLines` | addons/bootstrap/textedit/edit-file.go:200-202 | every text is written lines and at the end perhaps one without a newline |
| `LineText.WrittenBareIff` | addons/bootstrap/textedit/edit-file.go:200-217 | scanning a written text and writing it again keeps it iff no piece ends in a carriage return, and shortens it otherwise |
| `LineText.WrittenEqualIff` | addons/bootstrap/textedit/edit-file.go:206-213 | two lists of lines write the same text iff they have the same pieces |
| `LineText.CorePiece` | addons/bootstrap/textedit/edit-file.go:200-217 | a string whose trimmed text is one line becomes lines of which the first with any text has that text |
| `LineText.SpaceCharacters` | addons/bootstrap/textedit/simple.go:39-53 | what trimming takes for white space, written out |
| `LineText.TrimChomp` | addons/bootstrap/textedit/edit-file.go:207-209 | the newline of a line does not matter to what editors compare |
| `LineText.FirstExtended` | addons/bootstrap/textedit/simple.go:39-53 | how the first match changes when a line follows |
| `LineText.WrittenSplit` | addons/bootstrap/textedit/edit-file.go:206-213 | writing in pieces is writing at once |
| `TextEdit.AppendDoes` | addons/bootstrap/textedit/simple.go:39-60 | the line stands in place of the first equal or old line, or at the end, and nothing else changes |
| `TextEdit.AppendIdempotent` | addons/bootstrap/textedit/simple.go:39-60 | appending twice is appending once |
| `TextEdit.SpliceDoes` | addons/bootstrap/textedit/range.go:44-83 | the block replaces the first range, all from an unended start on, or is added at the end; the text around it is kept |
| `TextEdit.SpliceIdempotentIff` | addons/bootstrap/textedit/range.go:44-83 | splicing twice is splicing once if no content line looks like the end marker, and makes the text longer otherwise |
| `TextEdit.ReplaceDoes` | addons/bootstrap/textedit/replace-line.go:58-95 | at most the line acted on changes; must-match fails iff none was |
| `TextEdit.HitIsMatch` | addons/bootstrap/textedit/replace-line.go:66-95 | a line acted on is old or new and directly preceded by exactly the previous lines |
| `TextEdit.CompleteIffTrackable` | addons/bootstrap/textedit/replace-line.go:66-95 | the first such line is always acted on iff there is at most one previous line, or they are all one line that is itself old or new |
| `TextEdit.RepeatedStartIsMissed` | addons/bootstrap/textedit/replace-line.go:86-92 | otherwise the first previous line once more in front makes the automaton miss the match |
| `TextEdit.ReplaceIdempotent` | addons/bootstrap/textedit/replace-line.go:66-95 | replacing twice is replacing once |
| `TextEdit.HitAgain` | addons/bootstrap/textedit/replace-line.go:66-95 | the second time the same line is acted on |
| `TextEdit.EditTwice` | addons/bootstrap/textedit/edit-file.go:195-232 | over whole texts and for every editor, own lines of several lines included: a second edit with a fresh editor fails iff the editor must match and no longer finds its place; otherwise it writes the same text iff, in the first text, no line the editor keeps ends in a carriage return and its own lines are recognized (an appended line, a block) or leave no further place (a replacing line that is several) |
| `TextEdit.SettledIff` | addons/bootstrap/textedit/edit-file.go:195-232 | one edit leaves a text as it is iff no line kept ends in a carriage return and the lines replaced are the pieces of the lines put there |
| `TextEdit.RecognizedIff` | addons/bootstrap/textedit/simple.go:15-53 | an appended line is found again among the lines it becomes iff its trimmed text is one line |
| `TextEdit.OrdinaryIsRepeatable` | addons/bootstrap/textedit/edit-file.go:195-232 | with own lines of one line each, every text in which no scanned line ends in a carriage return is repeatable |
| `TextEdit.AppendAgain` | addons/bootstrap/textedit/simple.go:39-60 | an appended text is settled iff the first was repeatable: among its pieces the editor meets the line itself first |
| `TextEdit.ReplaceAgain` | addons/bootstrap/textedit/replace-line.go:58-95 | the same for replacing: the new line is one line, or no further place is found |
| `TextEdit.SpliceAgain` | addons/bootstrap/textedit/range.go:44-83 | the same for splicing: the block's first piece is the start marker and no piece but its last the end marker |
| `TextEdit.SecondEdit` | addons/bootstrap/textedit/replace-line.go:58-63 | a second edit fails iff the editor must match and its new line of several lines left it no place |
| `TextEdit.ResultSpan` | addons/bootstrap/textedit/edit-file.go:195-232 | every editor puts its own lines in place of one stretch of the input and keeps the rest in order |
| `TextEdit.EditKeepsLines` | addons/bootstrap/textedit/edit-file.go:195-232 | for every text, what an edit writes is the lines of the text outside the stretch replaced, an unended last one included, in order, with the editor's own lines in its place |
| `TextEdit.DoubleReturnIsNotStable` | addons/bootstrap/textedit/edit-file.go:200-212 | witness: a line ending in two carriage returns changes at the second edit |
| `LineEditors.AppendLine` | addons/bootstrap/textedit/simple.go:15-29 | panics iff the line or an old line has no text; otherwise a fresh editor that compares old lines trimmed |
| `LineEditors.SimpleEditor.NextLine` | addons/bootstrap/textedit/simple.go:39-53 | one line of input, as the model's step |
| `LineEditors.SimpleEditor.EOF` | addons/bootstrap/textedit/simple.go:55-60 | the line itself iff it was not placed |
| `LineEditors.SpliceRange` | addons/bootstrap/textedit/range.go:16-33 | panics iff there are fewer than three lines or a marker has no text; otherwise a fresh editor whose block is the lines given |
| `LineEditors.RangeEditor.NextLine` | addons/bootstrap/textedit/range.go:44-69 | one line of input, as the model's step |
| `LineEditors.RangeEditor.EOF` | addons/bootstrap/textedit/range.go:72-83 | the block iff no range was completed |
| `LineEditors.ReplaceLine` | addons/bootstrap/textedit/replace-line.go:13-23 | panics iff a line has no text; otherwise a fresh editor with trimmed lines |
| `LineEditors.ReplaceLineEditor.WithPreviousLines` | addons/bootstrap/textedit/replace-line.go:35-44 | panics iff one of them has no text; otherwise they are kept trimmed |
| `LineEditors.ReplaceLineEditor.MustMatch` | addons/bootstrap/textedit/replace-line.go:48-51 | the editor must match from then on |
| `LineEditors.ReplaceLineEditor.NextLine` | addons/bootstrap/textedit/replace-line.go:66-95 | one line of input, as the model's step |
| `LineEditors.ReplaceLineEditor.EOF` | addons/bootstrap/textedit/replace-line.go:58-63 | fails iff a required match was not found |
| `LineEditors.WriteLines` | addons/bootstrap/textedit/edit-file.go:206-213 | every output line ends in exactly one added or own newline |
| `LineEditors.Edit` | addons/bootstrap/textedit/edit-file.go:195-232 | the driver writes what the editor makes of the scanned lines, or fails as the editor does; with a fresh editor every input line outside the stretch replaced is in the output, in order |

## Left out

- Plan: steps are frozen once added, so changing a step afterwards is not modelled; a factory returns the step it is registered for; running and simulating the steps and all printed text, with the sorting of names in it, are left out.
- Versions: bytes are read as Latin-1 runes, and only ASCII white space is trimmed.
- Child: spawning, signals, isolation groups, health checks and logs; a start's outcome and a process's exit are arbitrary events. Timers are armed flags that may fire at any later moment, so durations are not modelled.
- Server: apart from writing a response (`WriterFailure`) no step fails, and only the reader's return cancels the context; when writing the capabilities fails, the code returns at once, and that is not modelled; JSON and base64 framing and the hit counters are left out. A handler answers anything its command allows.
- TeedWrite: reads of no bytes are no steps; what a layer does with the bytes is in the other modules.
- Layers and front end: output ids determine contents, and one writer writes an output name at a time, as the code's own skip of existing outputs assumes. Remote stores over HTTP, GCS, S3 and SFTP are taken to behave like directories. Closing a layered store is left out; waiting for users in `Close` is modelled in the state machine of `Gate.dfy`.
- Faults: an output that fails while it is read from one layer into another counts as one that could not be opened.
- Ids are non-empty: the code indexes their first byte and panics otherwise.
- Directory: permissions, making directories, flushing and closing are one operation that may fail. When renaming an output fails, the code removes the temporary file relative to the process's own directory (disk-storage-backend.go:165); the model lets that removal fail.
- Action record: times are 64-bit nanoseconds; scanning knows ASCII blanks only, not all of `Sscanf`.
- Stanzas and text: white space is that of the first 256 code points; writer and reader errors, the scanner's limit on line length and the scanner that drives `Deb822SplitStanza` are left out.
- Sources: the `With` methods, the one-line list format and validation would only add easy members; comparing two sources is equality of their values here.
- Editors: `EditFile` with its checksum and its handling of files owned by root is left out, and so is that `WithPreviousLines` also trims the caller's own slice.
