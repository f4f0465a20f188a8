/** The scheduling core of a bootstrap plan: what a valid order of steps is, what one
    resolution pass computes, and why greedy resolution is sound, complete and canonical. */
module Scheduling {

  /** A step as the plan sees it; steps are not changed once they have been added. */
  datatype Step = Step(name: string, after: set<string>, before: set<string>)

  /** The two lists a plan keeps. */
  datatype PlanState = PlanState(ordered: seq<Step>, pending: seq<Step>) {
    function All(): seq<Step> { ordered + pending }
  }

  function Names(steps: seq<Step>): set<string> {
    set s | s in steps :: s.name
  }

  ghost predicate UniqueNames(steps: seq<Step>) {
    forall i, j :: 0 <= i < j < |steps| ==> steps[i].name != steps[j].name
  }

  // ----- what the plan promises -----

  /** A total order of all steps: every after-dependency is present and earlier, and
      every before-constraint whose target is in the plan holds. */
  ghost predicate ValidOrder(all: seq<Step>, t: seq<Step>) {
    && multiset(t) == multiset(all)
    && (forall i, n :: 0 <= i < |t| && n in t[i].after ==> NamedBefore(t, i, n))
    && (forall i, j :: 0 <= i < |t| && 0 <= j < |t| && t[j].name in t[i].before ==> i < j)
  }

  ghost predicate NamedBefore(t: seq<Step>, i: nat, n: string)
    requires i <= |t|
  {
    exists j :: 0 <= j < i && t[j].name == n
  }

  ghost predicate Schedulable(all: seq<Step>) {
    exists t :: ValidOrder(all, t)
  }

  /** `s` may run next once exactly the steps `done` have run. */
  ghost predicate MayFollow(all: seq<Step>, done: seq<Step>, s: Step) {
    && s.after <= Names(done)
    && forall p :: p in all && s.name in p.before ==> p in done
  }

  /** A valid order of some of the steps, closed under both kinds of constraint. */
  ghost predicate PartialOrder(all: seq<Step>, q: seq<Step>) {
    && UniqueNames(q)
    && (forall s :: s in q ==> s in all)
    && forall i :: 0 <= i < |q| ==> MayFollow(all, q[..i], q[i])
  }

  // ----- what the code computes -----

  predicate Resolvable(ordered: seq<Step>, pending: seq<Step>, s: Step) {
    && s.after <= Names(ordered)
    && forall p :: p in pending ==> s.name !in p.before
  }

  ghost predicate Stuck(st: PlanState) {
    forall s :: s in st.pending ==> !Resolvable(st.ordered, st.pending, s)
  }

  function Without(steps: seq<Step>, i: nat): seq<Step>
    requires i < |steps|
  {
    steps[..i] + steps[i + 1..]
  }

  /** The first pending step that can be placed, or the number of pending steps. */
  function FirstResolvable(st: PlanState, from: nat): (i: nat)
    requires from <= |st.pending|
    ensures from <= i <= |st.pending|
    ensures forall k :: from <= k < i ==> !Resolvable(st.ordered, st.pending, st.pending[k])
    ensures i < |st.pending| ==> Resolvable(st.ordered, st.pending, st.pending[i])
    decreases |st.pending| - from
  {
    if from == |st.pending| || Resolvable(st.ordered, st.pending, st.pending[from]) then from
    else FirstResolvable(st, from + 1)
  }

  function Place(st: PlanState, i: nat): PlanState
    requires i < |st.pending|
  {
    PlanState(st.ordered + [st.pending[i]], Without(st.pending, i))
  }

  /** Resolution restarts its scan after every step it places. */
  function ResolveAll(st: PlanState): PlanState
    decreases |st.pending|
  {
    var i := FirstResolvable(st, 0);
    if i == |st.pending| then st else ResolveAll(Place(st, i))
  }

  datatype AddOutcome = Added | Duplicate(name: string) | TooLate(name: string)

  /** Adding stops at the first step the plan refuses; the steps before it stay added. */
  function AddAll(st: PlanState, steps: seq<Step>): (PlanState, AddOutcome)
    decreases |steps|
  {
    if steps == [] then (st, Added)
    else if steps[0].name in Names(st.All()) then (st, Duplicate(steps[0].name))
    else if steps[0].before != {} && st.ordered != [] then (st, TooLate(steps[0].name))
    else AddAll(PlanState(st.ordered, st.pending + [steps[0]]), steps[1..])
  }

  datatype Call = AddSteps(steps: seq<Step>) | Ready

  function Apply(st: PlanState, call: Call): PlanState {
    match call
    case AddSteps(steps) => AddAll(st, steps).0
    case Ready => ResolveAll(st)
  }

  const EMPTY := PlanState([], [])

  /** The state of a new plan after a history of calls, latest call last. */
  function After(calls: seq<Call>): PlanState {
    if calls == [] then EMPTY else Apply(After(calls[..|calls| - 1]), calls[|calls| - 1])
  }

  ghost predicate Accepted(calls: seq<Call>) {
    forall i :: 0 <= i < |calls| && calls[i].AddSteps? ==> AddAll(After(calls[..i]), calls[i].steps).1 == Added
  }

  function AddedBy(calls: seq<Call>): seq<Step> {
    if calls == [] then []
    else
      var last := calls[|calls| - 1];
      AddedBy(calls[..|calls| - 1]) + if last.AddSteps? then last.steps else []
  }

  // ----- the invariant of every history -----

  ghost predicate Inv(st: PlanState) {
    && UniqueNames(st.All())
    && PartialOrder(st.All(), st.ordered)
  }

  lemma MoveKeepsSteps(o: seq<Step>, p: seq<Step>, i: nat)
    requires i < |p| && UniqueNames(o + p)
    ensures UniqueNames(o + [p[i]] + Without(p, i))
    ensures multiset(o + [p[i]] + Without(p, i)) == multiset(o + p)
  {
    var a, b, n := o + p, o + [p[i]] + Without(p, i), |o|;
    assert forall k :: 0 <= k < |b| ==> b[k] == a[if k < n then k else if k == n then n + i else if k <= n + i then k - 1 else k];
    assert p == p[..i] + [p[i]] + p[i + 1..];
  }

  lemma SameElements(a: seq<Step>, b: seq<Step>)
    requires multiset(a) == multiset(b)
    ensures forall x :: x in a <==> x in b
  {
    forall x ensures x in a <==> x in b {
      assert x in multiset(a) <==> x in multiset(b);
    }
  }

  lemma PlaceKeepsInv(st: PlanState, i: nat)
    requires Inv(st) && i < |st.pending| && Resolvable(st.ordered, st.pending, st.pending[i])
    ensures Inv(Place(st, i))
    ensures multiset(Place(st, i).All()) == multiset(st.All())
  {
    var st', n := Place(st, i), |st.ordered|;
    MoveKeepsSteps(st.ordered, st.pending, i);
    SameElements(st.All(), st'.All());
    var q := st'.ordered;
    forall k | 0 <= k < |q| ensures MayFollow(st'.All(), q[..k], q[k]) {
      if k < n {
        assert q[..k] == st.ordered[..k];
        assert MayFollow(st.All(), st.ordered[..k], st.ordered[k]);
      } else {
        assert q[..k] == st.ordered;
      }
    }
    assert forall k :: 0 <= k < |q| ==> q[k] == st'.All()[k];
    assert forall s :: s in q ==> s in st'.All();
  }

  /** A resolution pass keeps the invariant and the steps, only extends the order, and
      ends with nothing placeable. */
  lemma {:induction false} ResolveAllSound(st: PlanState)
    requires Inv(st)
    ensures var st' := ResolveAll(st);
      && Inv(st') && Stuck(st') && st.ordered <= st'.ordered
      && multiset(st'.All()) == multiset(st.All())
    decreases |st.pending|
  {
    var i := FirstResolvable(st, 0);
    if i < |st.pending| {
      PlaceKeepsInv(st, i);
      ResolveAllSound(Place(st, i));
    }
  }

  /** The plan takes the step: its name is new and it asks for nothing too late. */
  predicate Takes(st: PlanState, earlier: seq<Step>, s: Step) {
    && s.name !in Names(st.All()) && s.name !in Names(earlier)
    && (s.before == {} || st.ordered == [])
  }

  /** The first `i` steps are taken, and the next one, if there is one, is not. */
  ghost predicate TakenUpTo(st: PlanState, steps: seq<Step>, i: nat) {
    && i <= |steps|
    && (forall k :: 0 <= k < i ==> Takes(st, steps[..k], steps[k]))
    && (i < |steps| ==> !Takes(st, steps[..i], steps[i]))
  }

  /** Adding takes steps up to the first one refused, and says why that one is: because its
      name is there already, and otherwise because of its `before` list. */
  lemma {:induction false} AddAllTakes(st: PlanState, steps: seq<Step>, i: nat)
    requires TakenUpTo(st, steps, i)
    ensures AddAll(st, steps) ==
      (PlanState(st.ordered, st.pending + steps[..i]),
       if i == |steps| then Added
       else if steps[i].name in Names(st.All()) || steps[i].name in Names(steps[..i]) then Duplicate(steps[i].name)
       else TooLate(steps[i].name))
    decreases |steps|
  {
    hide Takes, Names, AddAll, TakenUpTo;
    TakenFront(st, steps, i);
    if i == 0 {
      assert st.pending + steps[..0] == st.pending;
      AddRefused(st, steps);
    } else {
      var s, rest := steps[0], steps[1..];
      AddAllTakes(Pend(st, s), rest, i - 1);
      assert steps[..i] == [s] + rest[..i - 1];
      assert Pend(st, s).pending + rest[..i - 1] == st.pending + steps[..i];
      NamesLater(st, s, rest[..i - 1]);
      if i < |steps| { assert steps[i] == rest[i - 1]; }
    }
  }

  function Pend(st: PlanState, s: Step): PlanState {
    PlanState(st.ordered, st.pending + [s])
  }

  lemma AddRefused(st: PlanState, steps: seq<Step>)
    requires steps != [] ==> !Takes(st, [], steps[0])
    ensures AddAll(st, steps) == (st,
      if steps == [] then Added
      else if steps[0].name in Names(st.All()) || steps[0].name in Names(steps[..0]) then Duplicate(steps[0].name)
      else TooLate(steps[0].name))
  {
  }

  lemma TakenFront(st: PlanState, steps: seq<Step>, i: nat)
    requires TakenUpTo(st, steps, i)
    ensures i <= |steps| && (i == 0 && steps != [] ==> !Takes(st, [], steps[0]))
    ensures i > 0 ==> TakenUpTo(Pend(st, steps[0]), steps[1..], i - 1) && AddAll(st, steps) == AddAll(Pend(st, steps[0]), steps[1..])
  {
    hide Takes, Names;
    if steps != [] {
      var s, rest := steps[0], steps[1..];
      assert steps[..0] == [];
      forall k | 0 <= k < |rest| ensures Takes(Pend(st, s), rest[..k], rest[k]) <==> Takes(st, steps[..k + 1], steps[k + 1]) {
        TakesLater(st, s, rest[..k], rest[k]);
        assert steps[..k + 1] == [s] + rest[..k];
      }
      if i > 0 {
        assert Takes(st, steps[..0], s);
        AddTaken(st, steps);
      }
    }
  }

  lemma AddTaken(st: PlanState, steps: seq<Step>)
    requires steps != [] && Takes(st, [], steps[0])
    ensures AddAll(st, steps) == AddAll(Pend(st, steps[0]), steps[1..])
  {
  }

  lemma NamesLater(st: PlanState, s: Step, earlier: seq<Step>)
    ensures Names(Pend(st, s).All()) + Names(earlier) == Names(st.All()) + Names([s] + earlier)
  {
    var st1 := Pend(st, s);
    assert st1.All() == st.All() + [s];
    assert forall x :: x in st1.All() <==> x in st.All() || x == s;
    assert forall x :: x in [s] + earlier <==> x == s || x in earlier;
  }

  lemma TakesLater(st: PlanState, s: Step, earlier: seq<Step>, t: Step)
    ensures Takes(Pend(st, s), earlier, t) <==> Takes(st, [s] + earlier, t)
  {
    hide Names;
    NamesLater(st, s, earlier);
    var st1 := Pend(st, s);
    assert t.name in Names(st1.All()) + Names(earlier) <==> t.name in Names(st.All()) + Names([s] + earlier);
  }

  lemma {:induction false} AddAllKeepsInv(st: PlanState, steps: seq<Step>)
    requires Inv(st)
    ensures Inv(AddAll(st, steps).0) && AddAll(st, steps).0.ordered == st.ordered
    ensures AddAll(st, steps).1 == Added ==> AddAll(st, steps).0.pending == st.pending + steps
    decreases |steps|
  {
    if steps == [] || steps[0].name in Names(st.All()) || (steps[0].before != {} && st.ordered != []) {
    } else {
      var st1 := PlanState(st.ordered, st.pending + [steps[0]]);
      assert st1.All() == st.All() + [steps[0]];
      forall k | 0 <= k < |st.ordered| ensures MayFollow(st1.All(), st.ordered[..k], st.ordered[k]) {
        assert MayFollow(st.All(), st.ordered[..k], st.ordered[k]);
      }
      AddAllKeepsInv(st1, steps[1..]);
      assert st.pending + steps == st1.pending + steps[1..];
    }
  }

  /** Every reachable plan satisfies the invariant. */
  lemma {:induction false} HistoryInv(calls: seq<Call>)
    ensures Inv(After(calls))
  {
    if calls != [] {
      var front, last := calls[..|calls| - 1], calls[|calls| - 1];
      HistoryInv(front);
      match last {
        case AddSteps(steps) => AddAllKeepsInv(After(front), steps);
        case Ready => ResolveAllSound(After(front));
      }
    }
  }

  lemma AcceptedFront(calls: seq<Call>)
    requires Accepted(calls) && calls != []
    ensures var front, last := calls[..|calls| - 1], calls[|calls| - 1];
      Accepted(front) && (last.AddSteps? ==> AddAll(After(front), last.steps).1 == Added)
  {
    var front := calls[..|calls| - 1];
    assert forall i :: 0 <= i < |front| ==> front[..i] == calls[..i] && front[i] == calls[i];
  }

  /** Nothing is lost or invented: the plan always holds exactly the steps it accepted. */
  lemma {:induction false} HistoryKeepsSteps(calls: seq<Call>)
    requires Accepted(calls)
    ensures multiset(After(calls).All()) == multiset(AddedBy(calls))
  {
    hide Inv, Stuck, Accepted, AddAll, ResolveAll;
    if calls != [] {
      var front, last := calls[..|calls| - 1], calls[|calls| - 1];
      AcceptedFront(calls);
      HistoryKeepsSteps(front);
      HistoryInv(front);
      match last {
        case AddSteps(steps) =>
          AddAllKeepsInv(After(front), steps);
          assert After(calls).All() == After(front).All() + steps;
        case Ready => ResolveAllSound(After(front));
      }
    }
  }

  // ----- valid orders, read step by step -----

  lemma CountsOnce(a: seq<Step>, x: Step)
    requires UniqueNames(a)
    ensures multiset(a)[x] <= 1
  {
    if x in a {
      var i :| 0 <= i < |a| && a[i] == x;
      assert a == a[..i] + [x] + a[i + 1..];
      assert x !in a[..i] && x !in a[i + 1..];
    }
  }

  lemma CountsTwice(a: seq<Step>, i: nat, j: nat)
    requires i < j < |a| && a[i] == a[j]
    ensures multiset(a)[a[i]] >= 2
  {
    assert a == a[..i] + [a[i]] + a[i + 1..j] + [a[j]] + a[j + 1..];
  }

  /** A valid order of distinct steps is a partial order that leaves no step out. */
  lemma ValidOrderIsPartial(all: seq<Step>, t: seq<Step>)
    requires UniqueNames(all) && ValidOrder(all, t)
    ensures PartialOrder(all, t) && forall s :: s in all ==> s in t
  {
    SameElements(all, t);
    forall i, j | 0 <= i < j < |t| ensures t[i].name != t[j].name {
      if t[i].name == t[j].name {
        assert t[i] in all && t[j] in all;
        var x, y :| 0 <= x < |all| && 0 <= y < |all| && all[x] == t[i] && all[y] == t[j];
        assert x == y;
        CountsTwice(t, i, j);
        CountsOnce(all, t[i]);
      }
    }
    forall i | 0 <= i < |t| ensures MayFollow(all, t[..i], t[i]) {
      forall n | n in t[i].after ensures n in Names(t[..i]) {
        assert NamedBefore(t, i, n);
        var j :| 0 <= j < i && t[j].name == n;
        assert t[j] in t[..i];
      }
      forall p | p in all && t[i].name in p.before ensures p in t[..i] {
        var j :| 0 <= j < |t| && t[j] == p;
        assert j < i;
        assert t[..i][j] == p;
      }
    }
  }

  /** Once nothing is pending, the order the plan built is a valid total order. */
  lemma CompleteIsValidOrder(st: PlanState)
    requires Inv(st) && st.pending == []
    ensures ValidOrder(st.All(), st.ordered)
  {
    var t := st.ordered;
    assert st.All() == t;
    forall i, n | 0 <= i < |t| && n in t[i].after ensures NamedBefore(t, i, n) {
      assert MayFollow(st.All(), t[..i], t[i]);
      var s :| s in t[..i] && s.name == n;
      var j :| 0 <= j < i && t[..i][j] == s;
      assert t[j].name == n;
    }
    forall i, j | 0 <= i < |t| && 0 <= j < |t| && t[j].name in t[i].before ensures i < j {
      assert MayFollow(st.All(), t[..j], t[j]);
      assert t[i] in t[..j];
      var k :| 0 <= k < j && t[..j][k] == t[i];
      assert k == i;
    }
  }

  // ----- maximality -----

  /** A stuck plan has ordered every step that occurs in any valid partial order. */
  lemma {:induction false} StuckIsMaximal(st: PlanState, q: seq<Step>, k: nat)
    requires Inv(st) && Stuck(st) && PartialOrder(st.All(), q) && k <= |q|
    ensures forall s :: s in q[..k] ==> s in st.ordered
  {
    if k > 0 {
      StuckIsMaximal(st, q, k - 1);
      var s := q[k - 1];
      assert q[..k] == q[..k - 1] + [s];
      assert MayFollow(st.All(), q[..k - 1], s);
      if s in st.pending {
        forall p | p in st.pending ensures s.name !in p.before {
          if s.name in p.before {
            assert p in st.All() && p in st.ordered;
            SplitUnique(st, p);
          }
        }
        assert Resolvable(st.ordered, st.pending, s);
      }
    }
  }

  lemma SplitUnique(st: PlanState, s: Step)
    requires UniqueNames(st.All())
    ensures !(s in st.ordered && s in st.pending)
  {
    forall i, j | 0 <= i < |st.ordered| && 0 <= j < |st.pending| ensures st.ordered[i] != st.pending[j] {
      assert st.All()[i] == st.ordered[i] && st.All()[|st.ordered| + j] == st.pending[j];
    }
  }

  /** The steps ordered by a stuck plan are exactly the steps of the valid partial
      orders, so no scan order could have placed more, or others. */
  lemma OrderedIsReachable(st: PlanState, s: Step)
    requires Inv(st) && Stuck(st)
    ensures s in st.ordered <==> exists q :: PartialOrder(st.All(), q) && s in q
  {
    if q :| PartialOrder(st.All(), q) && s in q {
      StuckIsMaximal(st, q, |q|);
      assert q[..|q|] == q;
    }
  }

  lemma SchedulableLeavesNonePending(st: PlanState, t: seq<Step>)
    requires Inv(st) && Stuck(st) && ValidOrder(st.All(), t)
    ensures st.pending == []
  {
    hide Stuck, ValidOrder;
    if st.pending != [] {
      ValidOrderIsPartial(st.All(), t);
      StuckIsMaximal(st, t, |t|);
      assert t[..|t|] == t;
      assert st.pending[0] in st.All();
      SplitUnique(st, st.pending[0]);
    }
  }

  /** `Ready` succeeds exactly when a valid order of all the steps exists. */
  lemma ReadyIffSchedulable(st: PlanState)
    requires Inv(st)
    ensures var st' := ResolveAll(st);
      && (st'.pending == [] <==> Schedulable(st.All()))
      && (st'.pending == [] ==> ValidOrder(st.All(), st'.ordered))
  {
    hide Inv, Stuck;
    var st' := ResolveAll(st);
    ResolveAllSound(st);
    if st'.pending == [] {
      CompleteIsValidOrder(st');
      assert ValidOrder(st.All(), st'.ordered);
    }
    if t :| ValidOrder(st.All(), t) {
      assert ValidOrder(st'.All(), t);
      SchedulableLeavesNonePending(st', t);
    }
  }

  /** The main theorem over histories: whatever was added and however often `Ready` was
      asked before, it now answers true exactly when the added steps can be ordered. */
  lemma ReadyAfterAnyHistory(calls: seq<Call>)
    requires Accepted(calls)
    ensures var st' := After(calls + [Ready]);
      && (st'.pending == [] <==> Schedulable(AddedBy(calls)))
      && (st'.pending == [] ==> ValidOrder(AddedBy(calls), st'.ordered))
      && After(calls).ordered <= st'.ordered
  {
    var st := After(calls);
    assert (calls + [Ready])[..|calls|] == calls;
    HistoryInv(calls);
    HistoryKeepsSteps(calls);
    ResolveAllSound(st);
    ReadyIffSchedulable(st);
    if t :| ValidOrder(st.All(), t) { assert ValidOrder(AddedBy(calls), t); }
    if t :| ValidOrder(AddedBy(calls), t) { assert ValidOrder(st.All(), t); }
  }

  // ----- canonical order -----

  function Position(ins: seq<Step>, s: Step): nat
    requires s in ins
    decreases |ins|
  {
    if ins[0] == s then 0 else 1 + Position(ins[1..], s)
  }

  lemma {:induction false} PositionOf(ins: seq<Step>, i: nat)
    requires UniqueNames(ins) && i < |ins|
    ensures Position(ins, ins[i]) == i
    decreases |ins|
  {
    if i > 0 { PositionOf(ins[1..], i - 1); }
  }

  /** `p` keeps the relative order in which its steps stand in `ins`. */
  ghost predicate InsertionOrder(ins: seq<Step>, p: seq<Step>) {
    && (forall s :: s in p ==> s in ins)
    && forall i, j :: 0 <= i < j < |p| ==> Position(ins, p[i]) < Position(ins, p[j])
  }

  /** `o` precedes `q` at their first difference by insertion position, or extends it. */
  ghost predicate LexFirst(ins: seq<Step>, o: seq<Step>, q: seq<Step>) {
    || q <= o
    || exists k :: 0 <= k < |o| && k < |q| && FirstDiffers(ins, o, q, k)
  }

  ghost predicate FirstDiffers(ins: seq<Step>, o: seq<Step>, q: seq<Step>, k: nat)
    requires k < |o| && k < |q|
  {
    o[..k] == q[..k] && o[k] in ins && q[k] in ins && Position(ins, o[k]) < Position(ins, q[k])
  }

  lemma {:induction false} GreedyIsLexFirst(st: PlanState, ins: seq<Step>, q: seq<Step>)
    requires Inv(st) && InsertionOrder(ins, st.pending)
    requires PartialOrder(st.All(), q) && st.ordered <= q
    ensures LexFirst(ins, ResolveAll(st).ordered, q)
    decreases |st.pending|
  {
    if |q| == |st.ordered| {
      assert q == st.ordered;
      ResolveAllSound(st);
    } else {
      var i := FirstResolvable(st, 0);
      var j := NextIsResolvable(st, q);
      if j == i {
        GreedyFollows(st, ins, q, i);
        GreedyIsLexFirst(Place(st, i), ins, q);
      } else {
        PlaceKeepsInv(st, i);
        ResolveAllSound(Place(st, i));
        EarlierStepDiffers(st, ins, ResolveAll(Place(st, i)).ordered, q, i, j);
      }
    }
  }

  lemma GreedyFollows(st: PlanState, ins: seq<Step>, q: seq<Step>, i: nat)
    requires Inv(st) && InsertionOrder(ins, st.pending) && PartialOrder(st.All(), q) && st.ordered < q
    requires i < |st.pending| && q[|st.ordered|] == st.pending[i] && Resolvable(st.ordered, st.pending, st.pending[i])
    ensures Inv(Place(st, i)) && InsertionOrder(ins, Place(st, i).pending)
    ensures PartialOrder(Place(st, i).All(), q) && Place(st, i).ordered <= q
  {
    PlaceKeepsInv(st, i);
    PlaceKeepsInsertionOrder(st, ins, i);
    SameSteps(st.All(), Place(st, i).All(), q);
    assert q[..|st.ordered| + 1] == q[..|st.ordered|] + [q[|st.ordered|]];
  }

  lemma EarlierStepDiffers(st: PlanState, ins: seq<Step>, o: seq<Step>, q: seq<Step>, i: nat, j: nat)
    requires InsertionOrder(ins, st.pending) && i < j < |st.pending|
    requires st.ordered + [st.pending[i]] <= o
    requires st.ordered < q && q[|st.ordered|] == st.pending[j]
    ensures LexFirst(ins, o, q)
  {
    var n := |st.ordered|;
    assert o[n] == (st.ordered + [st.pending[i]])[n];
    assert o[..n] == st.ordered && q[..n] == st.ordered;
    assert FirstDiffers(ins, o, q, n);
  }

  lemma PlaceKeepsInsertionOrder(st: PlanState, ins: seq<Step>, i: nat)
    requires InsertionOrder(ins, st.pending) && i < |st.pending|
    ensures InsertionOrder(ins, Place(st, i).pending)
  {
    var p := Place(st, i).pending;
    assert forall k :: 0 <= k < |p| ==> p[k] == st.pending[if k < i then k else k + 1];
  }

  /** The step a partial order places next could be placed by the code as well. */
  lemma NextIsResolvable(st: PlanState, q: seq<Step>) returns (j: nat)
    requires Inv(st) && PartialOrder(st.All(), q) && st.ordered < q
    ensures j < |st.pending| && st.pending[j] == q[|st.ordered|]
    ensures Resolvable(st.ordered, st.pending, st.pending[j]) && FirstResolvable(st, 0) <= j
  {
    var n := |st.ordered|;
    var s := q[n];
    assert q[..n] == st.ordered;
    assert MayFollow(st.All(), q[..n], s);
    assert s in q && s in st.All();
    assert s !in st.ordered by {
      assert forall k :: 0 <= k < n ==> st.ordered[k] == q[k] && q[k].name != q[n].name;
    }
    j :| 0 <= j < |st.pending| && st.pending[j] == s;
    forall p | p in st.pending ensures s.name !in p.before {
      SplitUnique(st, p);
      assert p in st.All();
    }
  }

  lemma SameSteps(a: seq<Step>, b: seq<Step>, q: seq<Step>)
    requires multiset(a) == multiset(b) && PartialOrder(a, q)
    ensures PartialOrder(b, q)
  {
    SameElements(a, b);
    forall i | 0 <= i < |q| ensures MayFollow(b, q[..i], q[i]) { assert MayFollow(a, q[..i], q[i]); }
  }

  /** From any reachable plan, one resolution pass builds the least order by insertion
      position among all partial orders that keep the part already ordered; for a plan
      not yet resolved that is every valid order. */
  lemma ResolutionIsCanonical(st: PlanState, q: seq<Step>)
    requires Inv(st) && PartialOrder(st.All(), q) && st.ordered <= q
    ensures LexFirst(st.pending, ResolveAll(st).ordered, q)
  {
    var ins := st.pending;
    assert UniqueNames(ins) by {
      assert forall k :: 0 <= k < |ins| ==> ins[k] == st.All()[|st.ordered| + k];
    }
    forall i, j | 0 <= i < j < |ins| ensures Position(ins, ins[i]) < Position(ins, ins[j]) {
      PositionOf(ins, i);
      PositionOf(ins, j);
    }
    GreedyIsLexFirst(st, ins, q);
  }
}
