/** The mutable plan: adding steps, resolving them, filling in default steps and
    explaining a plan that cannot be resolved. */
module BootstrapPlan {
  import opened Scheduling
  import opened Digraph
  import opened Wrappers

  type Factories = map<string, Step>

  /** A factory makes the step it is registered for. */
  predicate WellRegistered(factories: Factories) {
    forall n :: n in factories ==> factories[n].name == n
  }

  // ----- what blocks a plan -----

  ghost predicate AfterWait(st: PlanState, steps: seq<Step>, a: string, b: string) {
    b !in Names(st.ordered) && exists s :: s in steps && s.name == a && b in s.after
  }

  ghost predicate BeforeWait(st: PlanState, steps: seq<Step>, a: string, b: string) {
    a !in Names(st.ordered) && exists s :: s in steps && s.name == b && a in s.before
  }

  /** `a` cannot run until `b` has: a pending `a` asks to run after the unordered `b`, or
      a pending `b` asks to run before the unordered `a`. */
  ghost predicate WaitsOn(st: PlanState, a: string, b: string) {
    AfterWait(st, st.pending, a, b) || BeforeWait(st, st.pending, a, b)
  }

  ghost predicate WaitCycle(st: PlanState, c: seq<string>) {
    && |c| > 0
    && (forall i :: 0 < i < |c| ==> WaitsOn(st, c[i - 1], c[i]))
    && WaitsOn(st, c[|c| - 1], c[0])
  }

  ghost predicate Circular(st: PlanState) {
    exists c :: WaitCycle(st, c)
  }

  /** `g` is the graph of unsatisfied dependencies. */
  ghost predicate IsWaitGraph(st: PlanState, g: Graph) {
    forall a, b :: b in Succ(g, a) <==> WaitsOn(st, a, b)
  }

  lemma WaitGraphCycles(st: PlanState, g: Graph)
    requires IsWaitGraph(st, g)
    ensures HasCycle(g) <==> Circular(st)
  {
    if c :| IsCycle(g, c) { assert WaitCycle(st, c); }
    if c :| WaitCycle(st, c) { assert IsCycle(g, c); }
  }

  /** Some pending step needs a name that was never added. */
  ghost predicate NeverAdded(st: PlanState, s: Step, n: string) {
    s in st.pending && n in s.after && n !in Names(st.All())
  }

  /** A stuck plan either waits in a circle or on a name that was never added. */
  lemma StuckHasCause(st: PlanState, g: Graph)
    requires Inv(st) && Stuck(st) && st.pending != [] && IsWaitGraph(st, g) && !HasCycle(g)
    ensures exists s, n :: NeverAdded(st, s, n)
  {
    var waiting := Names(st.pending);
    if forall s, n :: !NeverAdded(st, s, n) {
      assert st.pending[0].name in waiting;
      forall a | a in waiting ensures Succ(g, a) * waiting != {} {
        var s :| s in st.pending && s.name == a;
        var b := WaitsOnPending(st, s);
        assert b in Succ(g, a) * waiting;
      }
      ClosedSetHasCycle(g, waiting);
    }
  }

  lemma WaitsOnPending(st: PlanState, s: Step) returns (b: string)
    requires Inv(st) && Stuck(st) && s in st.pending && forall n :: !NeverAdded(st, s, n)
    ensures b in Names(st.pending) && WaitsOn(st, s.name, b)
  {
    assert !Resolvable(st.ordered, st.pending, s);
    if !(s.after <= Names(st.ordered)) {
      b :| b in s.after && b !in Names(st.ordered);
      assert !NeverAdded(st, s, b);
    } else {
      var p :| p in st.pending && s.name in p.before;
      b := p.name;
      NotOrdered(st, s);
    }
  }

  lemma FreshName(st: PlanState, i: nat)
    requires UniqueNames(st.All()) && i < |st.pending|
    ensures st.pending[i].name !in Names(st.pending[..i])
  {
    forall k | 0 <= k < i ensures st.pending[k].name != st.pending[i].name {
      assert st.All()[|st.ordered| + k] == st.pending[k] && st.All()[|st.ordered| + i] == st.pending[i];
    }
  }

  lemma NotOrdered(st: PlanState, s: Step)
    requires UniqueNames(st.All()) && s in st.pending
    ensures s.name !in Names(st.ordered)
  {
    var j :| 0 <= j < |st.pending| && st.pending[j] == s;
    forall i | 0 <= i < |st.ordered| ensures st.ordered[i].name != s.name {
      assert st.All()[i] == st.ordered[i] && st.All()[|st.ordered| + j] == s;
    }
  }

  // ----- default steps -----

  /** A set of names that holds the plan and, for every reference made from it, the
      default step of that name if there is one. References an ordered step makes
      through `after` are already met. */
  ghost predicate Closed(st: PlanState, factories: Factories, names: set<string>) {
    && Names(st.All()) <= names
    && (forall s, n :: s in st.ordered && n in s.before && n in factories ==> n in names)
    && (forall s, n :: s in st.pending && n in s.before + s.after && n in factories ==> n in names)
    && (forall m, n :: Default(st, factories, names, m) && n in factories[m].before + factories[m].after && n in factories ==> n in names)
  }

  /** `m` names a default step of `names` that is not in the plan itself. */
  ghost predicate Default(st: PlanState, factories: Factories, names: set<string>, m: string) {
    m in names && m in factories && m !in Names(st.All())
  }

  /** `n` lies in every closed set: the least closure needs it. */
  ghost predicate Needed(st: PlanState, factories: Factories, n: string) {
    forall names: set<string> :: Closed(st, factories, names) ==> n in names
  }

  /** `st` grew from `st0` by default steps only. */
  ghost predicate GrownByDefaults(st0: PlanState, factories: Factories, st: PlanState) {
    && Inv(st) && st.ordered == st0.ordered && st0.pending <= st.pending
    && forall k :: |st0.pending| <= k < |st.pending| ==>
         && st.pending[k].name in factories && st.pending[k] == factories[st.pending[k].name]
         && (st.ordered != [] ==> st.pending[k].before == {})
  }

  /** And by needed ones. */
  ghost predicate Grown(st0: PlanState, factories: Factories, st: PlanState) {
    GrownByDefaults(st0, factories, st) && forall n :: n in Names(st.All()) ==> Needed(st0, factories, n)
  }

  ghost predicate Filled(st: PlanState, factories: Factories, names: set<string>) {
    forall n :: n in names && n in factories ==> n in Names(st.All())
  }

  ghost predicate AllFilled(st: PlanState, factories: Factories, steps: seq<Step>, afterToo: bool) {
    forall s :: s in steps ==> Filled(st, factories, s.before) && (afterToo ==> Filled(st, factories, s.after))
  }

  lemma FilledGrows(st: PlanState, st': PlanState, factories: Factories, steps: seq<Step>, s: Step, afterToo: bool)
    requires AllFilled(st, factories, steps, afterToo) && st.ordered == st'.ordered && st.pending <= st'.pending
    requires Filled(st', factories, s.before) && (afterToo ==> Filled(st', factories, s.after))
    ensures AllFilled(st', factories, steps + [s], afterToo)
  {
    assert Names(st.All()) <= Names(st'.All()) by {
      forall x | x in st.All() ensures x in st'.All() {
        assert x in st.pending ==> x in st'.pending;
      }
    }
  }

  lemma ReferencedIsNeeded(st0: PlanState, factories: Factories, st: PlanState, s: Step, n: string)
    requires Grown(st0, factories, st) && n in factories
    requires (s in st.ordered && n in s.before) || (s in st.pending && n in s.before + s.after)
    ensures Needed(st0, factories, n)
  {
    forall names: set<string> | Closed(st0, factories, names) ensures n in names {
      if s in st.pending && s !in st0.pending {
        var k := NewIndex(st0.pending, st.pending, s);
        assert s in st.All();
        assert Needed(st0, factories, s.name);
        NewNameIsNew(st0, st, k);
      }
    }
  }

  lemma NewIndex(p0: seq<Step>, p: seq<Step>, s: Step) returns (k: nat)
    requires p0 <= p && s in p && s !in p0
    ensures |p0| <= k < |p| && p[k] == s
  {
    k :| 0 <= k < |p| && p[k] == s;
    assert forall i :: 0 <= i < |p0| ==> p[i] == p0[i];
  }

  lemma NewNameIsNew(st0: PlanState, st: PlanState, k: nat)
    requires UniqueNames(st.All()) && st.ordered == st0.ordered && st0.pending <= st.pending
    requires |st0.pending| <= k < |st.pending|
    ensures st.pending[k].name !in Names(st0.All())
  {
    forall i | 0 <= i < |st0.All()| ensures st0.All()[i].name != st.pending[k].name {
      assert st.All()[i] == st0.All()[i] && st.All()[|st.ordered| + k] == st.pending[k];
    }
  }

  lemma GrownFromItself(st: PlanState, factories: Factories)
    requires Inv(st)
    ensures Grown(st, factories, st)
  {
  }

  lemma NewDefault(st0: PlanState, factories: Factories, before: PlanState, st: PlanState)
    requires Grown(st0, factories, before) && Grown(st0, factories, st) && before.pending < st.pending
    ensures factories.Keys - Names(st.All()) < factories.Keys - Names(before.All())
  {
    var s := st.pending[|before.pending|];
    NewNameIsNew(before, st, |before.pending|);
    assert s in st.All() && s.name in factories.Keys - Names(before.All());
    forall x | x in before.All() ensures x in st.All() {
      assert x in before.pending ==> x in st.pending;
    }
  }

  /** A needed default step the plan can no longer accept. */
  ghost predicate Refused(st0: PlanState, factories: Factories, n: string) {
    Needed(st0, factories, n) && n in factories && n !in Names(st0.All()) && factories[n].before != {} && st0.ordered != []
  }

  /** Every default step a plan took up was acceptable to it. */
  lemma AddedStepAccepted(st0: PlanState, factories: Factories, st: PlanState, n: string)
    requires Grown(st0, factories, st) && Closed(st0, factories, Names(st.All()))
    ensures !Refused(st0, factories, n)
  {
    if Refused(st0, factories, n) {
      assert n in Names(st.All());
      var s :| s in st.All() && s.name == n;
      assert s !in st0.All();
      var k := NewIndex(st0.pending, st.pending, s);
    }
  }

  lemma GrowOne(st0: PlanState, factories: Factories, st: PlanState, s: Step)
    requires Grown(st0, factories, st) && Needed(st0, factories, s.name)
    requires s.name in factories && factories[s.name] == s && AddAll(st, [s]).1 == Added
    ensures Grown(st0, factories, AddAll(st, [s]).0) && AddAll(st, [s]).0 == PlanState(st.ordered, st.pending + [s])
  {
    AddAllKeepsInv(st, [s]);
    var st1 := AddAll(st, [s]).0;
    assert st1.All() == st.All() + [s];
    assert forall n :: n in Names(st1.All()) ==> n in Names(st.All()) || n == s.name;
  }

  lemma RefuseOne(st0: PlanState, factories: Factories, st: PlanState, s: Step)
    requires Grown(st0, factories, st) && Needed(st0, factories, s.name)
    requires s.name in factories && factories[s.name] == s && s.name !in Names(st.All())
    ensures var r := AddAll(st, [s]).1; r != Added ==> r == TooLate(s.name) && Refused(st0, factories, s.name)
  {
    assert forall x :: x in st0.All() ==> x in st.All();
  }

  /** When every reference is filled the added names are the least closure. */
  lemma FilledIsClosed(st0: PlanState, factories: Factories, st: PlanState)
    requires Grown(st0, factories, st)
    requires AllFilled(st, factories, st.ordered, false) && AllFilled(st, factories, st.pending, true)
    ensures Closed(st0, factories, Names(st.All()))
  {
    var names := Names(st.All());
    assert forall s :: s in st0.pending ==> s in st.pending;
    assert forall s :: s in st0.All() ==> s in st.All();
    forall m, n | Default(st0, factories, names, m) && n in factories[m].before + factories[m].after && n in factories
      ensures n in names
    {
      var s :| s in st.All() && s.name == m;
      assert s !in st0.All();
      var k := NewIndex(st0.pending, st.pending, s);
    }
  }

  ghost predicate Referenced(st: PlanState, n: string) {
    || (exists s :: s in st.ordered && n in s.before)
    || (exists s :: s in st.pending && n in s.before + s.after)
  }

  /** Without an unreferenced default step the names are closed still. */
  lemma UnreferencedCanBeDropped(st0: PlanState, factories: Factories, st: PlanState, k: nat)
    requires GrownByDefaults(st0, factories, st) && Closed(st0, factories, Names(st.All()))
    requires |st0.pending| <= k < |st.pending| && !Referenced(st, st.pending[k].name)
    ensures Closed(st0, factories, Names(st.All()) - {st.pending[k].name})
  {
    var n := st.pending[k].name;
    var fewer := Names(st.All()) - {n};
    NewNameIsNew(st0, st, k);
    assert forall s :: s in st0.pending ==> s in st.pending;
    forall m, r | Default(st0, factories, fewer, m) && r in factories[m].before + factories[m].after && r in factories
      ensures r in fewer
    {
      var s :| s in st.All() && s.name == m;
      assert s !in st0.All();
      var i := NewIndex(st0.pending, st.pending, s);
    }
  }

  /** A default step is added only if some step of the final plan refers to it. */
  lemma AddsNothingUnreferenced(st0: PlanState, factories: Factories, st: PlanState, k: nat)
    requires Grown(st0, factories, st) && Closed(st0, factories, Names(st.All()))
    requires |st0.pending| <= k < |st.pending|
    ensures Referenced(st, st.pending[k].name)
  {
    hide Inv, Closed;
    if !Referenced(st, st.pending[k].name) {
      assert st.pending[k] in st.All();
      assert Needed(st0, factories, st.pending[k].name);
      UnreferencedCanBeDropped(st0, factories, st, k);
    }
  }

  /** Filling in defaults twice adds nothing the second time. */
  lemma DefaultsAreIdempotent(st0: PlanState, factories: Factories, st1: PlanState, st2: PlanState)
    requires Grown(st0, factories, st1) && Closed(st0, factories, Names(st1.All()))
    requires Grown(st1, factories, st2)
    ensures st2 == st1
  {
    var names := Names(st1.All());
    assert Closed(st1, factories, names) by {
      forall s, n | s in st1.pending && n in s.before + s.after && n in factories ensures n in names {
        if s !in st0.pending {
          var k := NewIndex(st0.pending, st1.pending, s);
          NewNameIsNew(st0, st1, k);
          assert s in st1.All();
        }
      }
    }
    if |st2.pending| > |st1.pending| {
      var k := |st1.pending|;
      assert st2.pending[k] in st2.All();
      assert Needed(st1, factories, st2.pending[k].name);
      NewNameIsNew(st1, st2, k);
    }
  }

  // ----- reports -----

  function MissingReport(ordered: seq<Step>, pending: seq<Step>): seq<(string, set<string>)> {
    if pending == [] then []
    else
      var last := pending[|pending| - 1];
      var m := last.after - Names(ordered);
      MissingReport(ordered, pending[..|pending| - 1]) + if m == {} then [] else [(last.name, m)]
  }

  ghost predicate NamesTheCause(st: PlanState, report: seq<(string, set<string>)>) {
    exists e, n :: e in report && n in e.1 && n !in Names(st.All())
  }

  /** `name` is pending and has to come after `n`, which is not in the order. */
  ghost predicate Misses(ordered: seq<Step>, pending: seq<Step>, name: string, n: string) {
    n !in Names(ordered) && exists s :: s in pending && s.name == name && n in s.after
  }

  ghost predicate Reports(report: seq<(string, set<string>)>, name: string, n: string) {
    exists e :: e in report && e.0 == name && n in e.1
  }

  /** The report names exactly the missing steps, each under the step that misses it. */
  lemma {:induction false} ReportNames(ordered: seq<Step>, pending: seq<Step>, name: string, n: string)
    ensures Reports(MissingReport(ordered, pending), name, n) <==> Misses(ordered, pending, name, n)
    decreases |pending|
  {
    if pending != [] {
      var k := |pending| - 1;
      var front, last := pending[..k], pending[k];
      var m := last.after - Names(ordered);
      var before, report := MissingReport(ordered, front), MissingReport(ordered, pending);
      ReportNames(ordered, front, name, n);
      assert pending == front + [last];
      assert forall e :: e in report <==> e in before || (m != {} && e == (last.name, m));
      if last.name == name && n in m {
        assert (last.name, m) in report;
      }
    }
  }

  /** What placing the first step that can be placed means for the resolution. */
  lemma PlaceFirst(st: PlanState, i: nat)
    requires i < |st.pending| && Resolvable(st.ordered, st.pending, st.pending[i])
    requires forall k :: 0 <= k < i ==> !Resolvable(st.ordered, st.pending, st.pending[k])
    ensures ResolveAll(st) == ResolveAll(Place(st, i))
  {
    hide Resolvable;
    assert FirstResolvable(st, 0) == i;
  }

  lemma NothingToPlace(st: PlanState)
    requires forall k :: 0 <= k < |st.pending| ==> !Resolvable(st.ordered, st.pending, st.pending[k])
    ensures ResolveAll(st) == st
  {
    hide Resolvable;
  }

  lemma PlaceKeepsNames(st: PlanState, i: nat)
    requires Inv(st) && i < |st.pending| && Resolvable(st.ordered, st.pending, st.pending[i])
    ensures Inv(Place(st, i)) && Names(Place(st, i).All()) == Names(st.All())
  {
    PlaceKeepsInv(st, i);
    SameElements(st.All(), Place(st, i).All());
  }

  // ----- the plan -----

  datatype Prepared =
    | Runnable
    | NoActions
    | Blocked(names: seq<string>, circular: bool, missing: seq<(string, set<string>)>)

  class Plan {
    var byName: map<string, Step>
    var ordered: seq<Step>
    var pending: seq<Step>

    ghost function State(): PlanState
      reads this
    {
      PlanState(ordered, pending)
    }

    ghost predicate Valid()
      reads this
    {
      && Inv(State())
      && byName.Keys == Names(State().All())
    }

    constructor ()
      ensures Valid() && State() == EMPTY
    {
      byName, ordered, pending := map[], [], [];
    }

    method AddSteps(steps: seq<Step>) returns (r: AddOutcome)
      requires Valid()
      modifies this
      ensures Valid() && (State(), r) == AddAll(old(State()), steps)
    {
      for i := 0 to |steps|
        invariant Valid() && ordered == old(ordered)
        invariant AddAll(old(State()), steps) == AddAll(State(), steps[i..])
      {
        var s := steps[i];
        if s.name in byName {
          return Duplicate(s.name);
        }
        if s.before != {} && ordered != [] {
          return TooLate(s.name);
        }
        AddAllKeepsInv(State(), [s]);
        assert AddAll(State(), [s]).0 == PlanState(ordered, pending + [s]);
        byName := byName[s.name := s];
        pending := pending + [s];
        assert steps[i..][1..] == steps[i + 1..];
        assert State().All() == old(State()).ordered + pending[..|pending| - 1] + [s];
      }
      r := Added;
    }

    method ResolveOne(s: Step) returns (placed: bool)
      modifies this`ordered
      ensures placed == Resolvable(old(ordered), pending, s)
      ensures ordered == if placed then old(ordered) + [s] else old(ordered)
    {
      var unsatisfied := s.after;
      for i := 0 to |ordered|
        invariant unsatisfied == s.after - Names(ordered[..i])
      {
        assert ordered[..i + 1] == ordered[..i] + [ordered[i]];
        unsatisfied := unsatisfied - {ordered[i].name};
      }
      assert ordered[..|ordered|] == ordered;
      assert forall n :: n in s.after ==> n in unsatisfied || n in Names(ordered);
      if unsatisfied != {} {
        return false;
      }
      if exists s2 :: s2 in pending && s.name in s2.before {
        return false;
      }
      ordered := ordered + [s];
      placed := true;
    }

    method TryResolveAll()
      requires Valid()
      modifies this`ordered, this`pending
      ensures Valid() && State() == ResolveAll(old(State()))
    {
      hide Inv, Names, ResolveAll, Resolvable;
      var progress := true;
      while progress
        invariant Valid() && ResolveAll(State()) == ResolveAll(old(State()))
        invariant !progress ==> ResolveAll(State()) == State()
        decreases |pending|, progress
      {
        progress := false;
        ghost var st := State();
        for i := 0 to |pending|
          invariant State() == st && !progress
          invariant forall k :: 0 <= k < i ==> !Resolvable(st.ordered, st.pending, st.pending[k])
        {
          var placed := ResolveOne(pending[i]);
          if placed {
            progress := true;
            PlaceKeepsNames(st, i);
            PlaceFirst(st, i);
            pending := Without(pending, i);
            break;
          }
        }
        if !progress {
          NothingToPlace(st);
        }
      }
    }

    /** The answer is the existence of a valid order, not just the outcome of one scan. */
    method Ready() returns (ok: bool)
      requires Valid()
      modifies this`ordered, this`pending
      ensures Valid() && State() == ResolveAll(old(State())) && Stuck(State())
      ensures ok <==> pending == []
      ensures ok <==> Schedulable(old(State()).All())
      ensures ok ==> ValidOrder(old(State()).All(), ordered)
    {
      ReadyIffSchedulable(State());
      ResolveAllSound(State());
      TryResolveAll();
      ok := |pending| == 0;
    }

    method BuildWaitGraph() returns (g: Graph)
      requires Valid()
      ensures IsWaitGraph(State(), g)
    {
      ghost var st := State();
      var isOrdered := Names(ordered);
      g := map[];
      for i := 0 to |pending|
        invariant forall a, b :: b in Succ(g, a) <==> AfterWait(st, pending[..i], a, b)
      {
        FreshName(st, i);
        forall a, b ensures AfterWait(st, pending[..i + 1], a, b) <==>
          if a == pending[i].name then b in pending[i].after && b !in isOrdered else AfterWait(st, pending[..i], a, b)
        {
          assert pending[..i + 1] == pending[..i] + [pending[i]];
        }
        ghost var g0 := g;
        g := g[pending[i].name := pending[i].after - isOrdered];
        assert forall a :: a != pending[i].name ==> Succ(g, a) == Succ(g0, a);
      }
      assert pending[..|pending|] == pending;
      for i := 0 to |pending|
        invariant forall a, b :: b in Succ(g, a) <==> AfterWait(st, pending, a, b) || BeforeWait(st, pending[..i], a, b)
      {
        var s := pending[i];
        var todo := s.before;
        ghost var g0 := g;
        while todo != {}
          invariant todo <= s.before
          invariant forall a, b :: b in Succ(g, a) <==> b in Succ(g0, a) || (b == s.name && a in s.before - todo && a !in isOrdered)
          decreases todo
        {
          var target :| target in todo;
          todo := todo - {target};
          if target !in isOrdered {
            ghost var g1 := g;
            g := g[target := Succ(g, target) + {s.name}];
            assert forall a :: Succ(g, a) == if a == target then Succ(g1, a) + {s.name} else Succ(g1, a);
          }
        }
        assert pending[..i + 1] == pending[..i] + [s];
      }
      assert forall a, b :: WaitsOn(st, a, b) <==> AfterWait(st, pending, a, b) || BeforeWait(st, pending, a, b);
    }

    method DebugCircularDeps() returns (found: bool)
      requires Valid()
      ensures found <==> Circular(State())
    {
      var g := BuildWaitGraph();
      WaitGraphCycles(State(), g);
      found := FindCycles(g);
    }

    /** One entry per pending step with unmet after-dependencies, in pending order. */
    method DebugMissingDeps() returns (report: seq<(string, set<string>)>)
      ensures report == MissingReport(ordered, pending)
    {
      var isOrdered := Names(ordered);
      report := [];
      for i := 0 to |pending|
        invariant report == MissingReport(ordered, pending[..i])
      {
        assert pending[..i + 1][..i] == pending[..i];
        var m := pending[i].after - isOrdered;
        if m != {} {
          report := report + [(pending[i].name, m)];
        }
      }
      assert pending[..|pending|] == pending;
    }

    /** Resolves the plan before a run; when that fails, says why. */
    method Prepare() returns (r: Prepared)
      requires Valid()
      modifies this`ordered, this`pending
      ensures Valid() && State() == ResolveAll(old(State()))
      ensures r.Blocked? <==> !Schedulable(old(State()).All())
      ensures r.Runnable? ==> ValidOrder(old(State()).All(), ordered) && ordered != []
      ensures r.NoActions? <==> old(State()).All() == []
      ensures r.Blocked? ==> (r.circular <==> Circular(State()))
      ensures r.Blocked? && !r.circular ==> NamesTheCause(State(), r.missing)
      ensures r.Blocked? ==> |r.names| == |pending| && forall i :: 0 <= i < |pending| ==> r.names[i] == pending[i].name
    {
      var ok := Ready();
      if !ok {
        var names := seq(|pending|, i requires 0 <= i < |pending| reads this => pending[i].name);
        var circular := DebugCircularDeps();
        var missing := [];
        if !circular {
          missing := DebugMissingDeps();
          var g := BuildWaitGraph();
          WaitGraphCycles(State(), g);
          StuckHasCause(State(), g);
          ghost var s, n :| NeverAdded(State(), s, n);
          ReportNames(ordered, pending, s.name, n);
          assert NamesTheCause(State(), missing);
        }
        return Blocked(names, circular, missing);
      }
      r := if |ordered| == 0 then NoActions else Runnable;
    }

    /** Adds the missing default steps a set of references asks for, in some order. */
    method Fill(names: set<string>, factories: Factories, ghost st0: PlanState, ghost from: Step)
      returns (changed: bool, r: AddOutcome)
      requires Valid() && WellRegistered(factories) && Grown(st0, factories, State())
      requires (from in ordered && names <= from.before) || (from in pending && names <= from.before + from.after)
      modifies this
      ensures Valid() && Grown(st0, factories, State()) && old(pending) <= pending && ordered == old(ordered)
      ensures r == Added ==> Filled(State(), factories, names) && (changed <==> |pending| > |old(pending)|)
      ensures r != Added ==> r.TooLate? && Refused(st0, factories, r.name)
    {
      hide Inv, Grown, Refused, Needed;
      changed, r := false, Added;
      var todo := names;
      while todo != {}
        invariant todo <= names && r == Added
        invariant Valid() && Grown(st0, factories, State()) && old(pending) <= pending && ordered == old(ordered)
        invariant Filled(State(), factories, names - todo)
        invariant changed <==> |pending| > |old(pending)|
        decreases todo
      {
        var name :| name in todo;
        todo := todo - {name};
        if name in byName {
        } else if name in factories {
          ReferencedIsNeeded(st0, factories, State(), from, name);
          ghost var before := State();
          r := AddSteps([factories[name]]);
          if r != Added {
            RefuseOne(st0, factories, before, factories[name]);
            return;
          }
          GrowOne(st0, factories, before, factories[name]);
          changed := true;
        }
      }
    }

    /** Adds every known default step the plan refers to, directly or through another
        default step, and nothing else. Fails only where `AddSteps` would refuse one. */
    method AddDefaultSteps(factories: Factories) returns (r: AddOutcome)
      requires Valid() && WellRegistered(factories)
      modifies this
      ensures Valid() && Grown(old(State()), factories, State())
      ensures r == Added ==> Closed(old(State()), factories, Names(State().All()))
      ensures r == Added <==> forall n :: !Refused(old(State()), factories, n)
      ensures r == Added || r.TooLate?
    {
      hide AllFilled, Closed;
      ghost var st0 := State();
      var todo := true;
      GrownFromItself(st0, factories);
      r := Added;
      while todo
        invariant Valid() && Grown(st0, factories, State()) && r == Added
        invariant !todo ==> AllFilled(State(), factories, ordered, false) && AllFilled(State(), factories, pending, true)
        decreases factories.Keys - byName.Keys, todo
      {
        ghost var before := State();
        var changed: bool;
        todo, r := FillOrdered(factories, st0);
        if r != Added {
          return;
        }
        ghost var middle := State();
        changed, r := FillPending(factories, st0);
        if r != Added {
          return;
        }
        todo := todo || changed;
        if todo {
          NewDefault(st0, factories, before, State());
        } else {
          assert before == middle == State();
        }
      }
      FilledIsClosed(st0, factories, State());
      forall n ensures !Refused(st0, factories, n) {
        if Refused(st0, factories, n) {
          AddedStepAccepted(st0, factories, State(), n);
        }
      }
    }

    method FillOrdered(factories: Factories, ghost st0: PlanState) returns (changed: bool, r: AddOutcome)
      requires Valid() && WellRegistered(factories) && Grown(st0, factories, State())
      modifies this
      ensures Valid() && Grown(st0, factories, State()) && old(pending) <= pending && ordered == old(ordered)
      ensures r == Added ==> (changed <==> |pending| > |old(pending)|) && AllFilled(State(), factories, ordered, false)
      ensures r != Added ==> r.TooLate? && Refused(st0, factories, r.name)
    {
      hide Inv, Grown, Refused;
      changed, r := false, Added;
      for i := 0 to |ordered|
        invariant Valid() && Grown(st0, factories, State()) && old(pending) <= pending && ordered == old(ordered) && r == Added
        invariant changed <==> |pending| > |old(pending)|
        invariant AllFilled(State(), factories, ordered[..i], false)
      {
        var more: bool;
        ghost var st := State();
        more, r := Fill(ordered[i].before, factories, st0, ordered[i]);
        if r != Added {
          return;
        }
        changed := changed || more;
        FilledGrows(st, State(), factories, ordered[..i], ordered[i], false);
        assert ordered[..i + 1] == ordered[..i] + [ordered[i]];
      }
      assert ordered[..|ordered|] == ordered;
    }

    /** Looks at the steps pending when the pass starts, not at those it adds. */
    method FillPending(factories: Factories, ghost st0: PlanState) returns (changed: bool, r: AddOutcome)
      requires Valid() && WellRegistered(factories) && Grown(st0, factories, State())
      modifies this
      ensures Valid() && Grown(st0, factories, State()) && old(pending) <= pending && ordered == old(ordered)
      ensures r == Added ==> (changed <==> |pending| > |old(pending)|) && AllFilled(State(), factories, old(pending), true)
      ensures r != Added ==> r.TooLate? && Refused(st0, factories, r.name)
    {
      hide Inv, Grown, Refused;
      changed, r := false, Added;
      var steps := pending;
      for i := 0 to |steps|
        invariant Valid() && Grown(st0, factories, State()) && steps <= pending && ordered == old(ordered) && r == Added
        invariant changed <==> |pending| > |steps|
        invariant AllFilled(State(), factories, steps[..i], true)
      {
        var more: bool;
        ghost var st := State();
        assert pending[i] == steps[i];
        more, r := Fill(steps[i].before, factories, st0, steps[i]);
        if r != Added {
          return;
        }
        changed := changed || more;
        ghost var filled := State();
        assert pending[i] == steps[i];
        more, r := Fill(steps[i].after, factories, st0, steps[i]);
        if r != Added {
          return;
        }
        changed := changed || more;
        FilledGrows(filled, State(), factories, [], Step("", steps[i].after, steps[i].before), false);
        FilledGrows(st, State(), factories, steps[..i], steps[i], true);
        assert steps[..i + 1] == steps[..i] + [steps[i]];
      }
      assert steps[..|steps|] == steps;
    }
  }
}
