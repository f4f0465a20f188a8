/** Depth-first cycle detection over a finite graph of names.

    One visited set is shared by all searches. What was visited and is no longer on the
    stack is kept as a finishing order in which every edge leads to a node finished
    before; such an order leaves no room for a cycle, so the search is exact in whatever
    order nodes are taken. */
module Digraph {
  import opened Wrappers

  type Graph = map<string, set<string>>

  function Succ(g: Graph, n: string): set<string> {
    if n in g then g[n] else {}
  }

  ghost predicate Walk(g: Graph, w: seq<string>) {
    forall i :: 0 < i < |w| ==> w[i] in Succ(g, w[i - 1])
  }

  ghost predicate IsCycle(g: Graph, c: seq<string>) {
    |c| > 0 && Walk(g, c) && c[0] in Succ(g, c[|c| - 1])
  }

  ghost predicate HasCycle(g: Graph) {
    exists c :: IsCycle(g, c)
  }

  /** A finishing order: everything a name leads to was finished before the name. */
  ghost predicate Finished(g: Graph, fin: seq<string>) {
    forall k, n :: 0 <= k < |fin| && n in Succ(g, fin[k]) ==> n in fin[..k]
  }

  // ----- why a finishing order excludes cycles -----

  ghost function Rank(fin: seq<string>, n: string): (r: nat)
    requires n in fin
    ensures r < |fin| && fin[r] == n
    ensures forall k :: 0 <= k < r ==> fin[k] != n
  {
    if fin[0] == n then 0 else 1 + Rank(fin[1..], n)
  }

  lemma SuccRanksLower(g: Graph, fin: seq<string>, n: string, m: string)
    requires Finished(g, fin) && n in fin && m in Succ(g, n)
    ensures m in fin && Rank(fin, m) < Rank(fin, n)
  {
    var k := Rank(fin, n);
    assert m in fin[..k];
    var j :| 0 <= j < k && fin[..k][j] == m;
    assert fin[j] == m;
  }

  lemma {:induction false} WalkDescends(g: Graph, fin: seq<string>, w: seq<string>)
    requires Finished(g, fin) && Walk(g, w) && |w| > 0 && w[0] in fin
    ensures w[|w| - 1] in fin && Rank(fin, w[|w| - 1]) <= Rank(fin, w[0])
    decreases |w|
  {
    if |w| > 1 {
      var front := w[..|w| - 1];
      WalkDescends(g, fin, front);
      assert front[|front| - 1] == w[|w| - 2];
      SuccRanksLower(g, fin, w[|w| - 2], w[|w| - 1]);
    }
  }

  /** If every name with outgoing edges is finished, there is no cycle. */
  lemma FinishedHasNoCycle(g: Graph, fin: seq<string>)
    requires Finished(g, fin) && forall n :: n in g ==> n in fin
    ensures !HasCycle(g)
  {
    if c :| IsCycle(g, c) {
      assert c[|c| - 1] in g;
      SuccRanksLower(g, fin, c[|c| - 1], c[0]);
      WalkDescends(g, fin, c);
    }
  }

  // ----- why endless waiting is a cycle -----

  /** A finite non-empty set in which every name leads to a name of the set has a cycle. */
  lemma ClosedSetHasCycle(g: Graph, p: set<string>)
    requires p != {} && forall n :: n in p ==> Succ(g, n) * p != {}
    ensures HasCycle(g)
  {
    var n :| n in p;
    ExtendWalk(g, p, [n]);
  }

  lemma WalkClosesCycle(g: Graph, w: seq<string>, i: nat)
    requires Walk(g, w) && i < |w| && w[i] in Succ(g, w[|w| - 1])
    ensures HasCycle(g)
  {
    var c := w[i..];
    forall k | 0 < k < |c| ensures c[k] in Succ(g, c[k - 1]) {
      assert c[k] == w[i + k] && c[k - 1] == w[i + k - 1];
    }
    assert IsCycle(g, c);
  }

  lemma {:induction false} ExtendWalk(g: Graph, p: set<string>, w: seq<string>)
    requires forall n :: n in p ==> Succ(g, n) * p != {}
    requires |w| > 0 && Walk(g, w) && Elements(w) <= p
    ensures HasCycle(g)
    decreases p - Elements(w)
  {
    var n :| n in Succ(g, w[|w| - 1]) * p by { assert w[|w| - 1] in Elements(w); }
    if n in w {
      var i :| 0 <= i < |w| && w[i] == n;
      WalkClosesCycle(g, w, i);
    } else {
      assert n in Elements(w + [n]) && n !in Elements(w);
      ExtendWalk(g, p, w + [n]);
    }
  }

  lemma FinishOne(g: Graph, fin: seq<string>, name: string)
    requires Finished(g, fin) && Succ(g, name) <= Elements(fin)
    ensures Finished(g, fin + [name]) && Elements(fin + [name]) == Elements(fin) + {name}
  {
    var fin' := fin + [name];
    forall k, n | 0 <= k < |fin'| && n in Succ(g, fin'[k]) ensures n in fin'[..k] {
      if k < |fin| {
        assert fin'[..k] == fin[..k];
        assert fin'[k] == fin[k];
      } else {
        assert fin'[..k] == fin;
      }
    }
  }

  // ----- the search -----

  /** What is known between visits while no cycle has been met: every visited name is
      on the stack or finished. */
  ghost predicate Clean(g: Graph, stack: seq<string>, visited: set<string>, fin: seq<string>) {
    visited == Elements(stack) + Elements(fin) && Finished(g, fin)
  }

  /** Visits `name` below `stack`. Once some cycle has been met (`clean` is false) the
      visited set may hold unfinished names and nothing more is claimed about it. */
  method Visit(g: Graph, name: string, stack0: seq<string>, visited0: set<string>,
               ghost all: set<string>, ghost fin0: seq<string>, ghost clean: bool)
    returns (visited: set<string>, found: bool, ghost fin: seq<string>)
    requires name in all && forall n :: n in g ==> g[n] <= all
    requires name !in stack0 && Walk(g, stack0 + [name])
    requires clean ==> Clean(g, stack0, visited0, fin0)
    ensures visited0 <= visited && name in visited
    ensures found ==> HasCycle(g)
    ensures clean && !found ==> Clean(g, stack0, visited, fin) && Elements(fin0) <= Elements(fin) && name in fin
    decreases all - visited0
  {
    visited, found, fin := visited0, false, fin0;
    if name in visited {
      return;
    }
    visited := visited + {name};
    var stack := stack0 + [name];
    var deps := Succ(g, name);
    while deps != {}
      invariant deps <= Succ(g, name)
      invariant visited0 + {name} <= visited
      invariant clean ==> Clean(g, stack, visited, fin) && Elements(fin0) <= Elements(fin) && Succ(g, name) - deps <= Elements(fin)
      decreases deps
    {
      var dep :| dep in deps;
      for i := 0 to |stack|
        invariant forall k :: 0 <= k < i ==> stack[k] != dep
      {
        if stack[i] == dep {
          WalkClosesCycle(g, stack, i);
          found := true;
          return;
        }
      }
      var below: bool;
      visited, below, fin := Visit(g, dep, stack, visited, all, fin, clean);
      if below {
        found := true;
        return;
      }
      deps := deps - {dep};
    }
    if clean {
      FinishOne(g, fin, name);
    }
    fin := fin + [name];
  }

  /** Searches from every name in some order. A search that met a cycle leaves names
      half-visited, but then the answer is settled. */
  method FindCycles(g: Graph) returns (found: bool)
    ensures found <==> HasCycle(g)
  {
    ghost var all := g.Keys + set n, m | n in g && m in g[n] :: m;
    var visited: set<string> := {};
    ghost var fin: seq<string> := [];
    found := false;
    var todo := g.Keys;
    while todo != {}
      invariant todo <= g.Keys
      invariant found ==> HasCycle(g)
      invariant !found ==> Clean(g, [], visited, fin) && g.Keys - todo <= Elements(fin)
      decreases todo
    {
      var name :| name in todo;
      todo := todo - {name};
      if name !in visited {
        var hit: bool;
        visited, hit, fin := Visit(g, name, [], visited, all, fin, !found);
        if hit {
          found := true;
        }
      }
    }
    if !found {
      assert forall n :: n in g.Keys ==> n in Elements(fin);
      FinishedHasNoCycle(g, fin);
    }
  }
}
