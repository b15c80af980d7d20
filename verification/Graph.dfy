/** Dependency graphs: a finite set of nodes, each with a list of the nodes it
    depends on (repetitions allowed). */
module Graph {

  type Id = string

  /** `deps[x]` lists what `x` depends on; the keys are the nodes. */
  type Deps = map<Id, seq<Id>>

  ghost predicate Closed(g: Deps) {
    forall x, d :: x in g && d in g[x] ==> d in g
  }

  predicate DependsOn(g: Deps, x: Id, d: Id) { x in g && d in g[x] }

  /** Each element depends on the next. */
  ghost predicate IsPath(g: Deps, p: seq<Id>) {
    p != [] && forall i :: 0 <= i < |p| - 1 ==> DependsOn(g, p[i], p[i + 1])
  }

  /** A path of at least one step that returns to its start. */
  ghost predicate IsCycle(g: Deps, p: seq<Id>) {
    2 <= |p| && IsPath(g, p) && p[0] == p[|p| - 1]
  }

  ghost predicate Acyclic(g: Deps) {
    forall p :: !IsCycle(g, p)
  }

  ghost predicate OnCycle(g: Deps, x: Id) {
    exists p :: IsCycle(g, p) && p[0] == x
  }

  /** Some path from `x` ends on a cycle. */
  ghost predicate ReachesCycle(g: Deps, x: Id) {
    exists p :: IsPath(g, p) && p[0] == x && OnCycle(g, p[|p| - 1])
  }

  /** A chain of `k` dependencies starts at `x`. */
  ghost predicate HasChain(g: Deps, x: Id, k: nat)
    decreases k
  {
    k == 0 || exists d :: DependsOn(g, x, d) && HasChain(g, d, k - 1)
  }

  /** Every dependency chain of `x` is matched by one of `y`: `x` is no deeper than `y`. */
  ghost predicate NoDeeper(g: Deps, x: Id, y: Id) {
    forall k: nat :: HasChain(g, x, k) ==> HasChain(g, y, k)
  }

  lemma {:induction false} ShorterChain(g: Deps, x: Id, k: nat)
    requires HasChain(g, x, k + 1)
    ensures HasChain(g, x, k)
    decreases k
  {
    if k != 0 {
      var d :| DependsOn(g, x, d) && HasChain(g, d, k);
      ShorterChain(g, d, k - 1);
    }
  }

  predicate Distinct(s: seq<Id>) {
    forall i, j :: 0 <= i < j < |s| ==> s[i] != s[j]
  }

  function Elements(s: seq<Id>): set<Id> { set x | x in s }

  ghost predicate DependsInto(g: Deps, x: Id, stuck: set<Id>) {
    exists d :: d in stuck && DependsOn(g, x, d)
  }

  /** Each node of the set depends on a node of the set. */
  ghost predicate Stuck(g: Deps, stuck: set<Id>) {
    forall x {:trigger DependsInto(g, x, stuck)} :: x in stuck ==> DependsInto(g, x, stuck)
  }

  /** In such a set every walk runs into a cycle. */
  lemma {:induction false} WalkFindsCycle(g: Deps, stuck: set<Id>, p: seq<Id>)
    requires Stuck(g, stuck)
    requires IsPath(g, p) && Distinct(p) && Elements(p) <= stuck
    ensures ReachesCycle(g, p[0])
    decreases stuck - Elements(p)
  {
    var last := p[|p| - 1];
    assert last in Elements(p);
    assert DependsInto(g, last, stuck);
    var d :| d in stuck && DependsOn(g, last, d);
    if d in p {
      var i :| 0 <= i < |p| && p[i] == d;
      var cycle := p[i..] + [d];
      assert forall k :: 0 <= k < |p| - i ==> cycle[k] == p[i + k];
      assert IsCycle(g, cycle);
      assert OnCycle(g, d);
      assert IsPath(g, p[..i + 1]) && p[..i + 1][i] == d;
    } else {
      var q := p + [d];
      assert Elements(q) == Elements(p) + {d};
      assert IsPath(g, q);
      WalkFindsCycle(g, stuck, q);
    }
  }

  lemma {:induction false} StuckReachesCycle(g: Deps, stuck: set<Id>, x: Id)
    requires Stuck(g, stuck)
    requires x in stuck
    ensures ReachesCycle(g, x)
  {
    assert Elements([x]) == {x};
    WalkFindsCycle(g, stuck, [x]);
  }

  /** Every dependency of an element stands before it. */
  ghost predicate DependenciesFirst(g: Deps, order: seq<Id>) {
    forall i, d :: 0 <= i < |order| && DependsOn(g, order[i], d) ==> d in order[..i]
  }

  /** Along a path that starts in such an order, positions strictly decrease. */
  lemma {:induction false} PathDescends(g: Deps, order: seq<Id>, p: seq<Id>, i: nat) returns (k: nat)
    requires DependenciesFirst(g, order) && IsPath(g, p)
    requires i < |order| && order[i] == p[0]
    ensures k + |p| - 1 <= i && order[k] == p[|p| - 1]
    decreases |p|
  {
    if |p| == 1 {
      k := i;
    } else {
      assert DependsOn(g, p[0], p[1]);
      assert p[1] in order[..i];
      var j :| 0 <= j < i && order[j] == p[1];
      assert IsPath(g, p[1..]) by {
        forall n | 0 <= n < |p[1..]| - 1
          ensures DependsOn(g, p[1..][n], p[1..][n + 1])
        {
          assert DependsOn(g, p[n + 1], p[n + 2]);
        }
      }
      k := PathDescends(g, order, p[1..], j);
    }
  }

  /** No element of such an order lies on a cycle, or leads to one. */
  lemma {:induction false} OrderedAvoidsCycles(g: Deps, order: seq<Id>, x: Id)
    requires DependenciesFirst(g, order) && Distinct(order) && x in order
    ensures !ReachesCycle(g, x)
  {
    if ReachesCycle(g, x) {
      var p :| IsPath(g, p) && p[0] == x && OnCycle(g, p[|p| - 1]);
      var c :| IsCycle(g, c) && c[0] == p[|p| - 1];
      var i :| 0 <= i < |order| && order[i] == x;
      var k := PathDescends(g, order, p, i);
      var k' := PathDescends(g, order, c, k);
      assert false;
    }
  }

  /** Some node reaches a cycle exactly when there is one. */
  lemma {:induction false} AcyclicMeansNoneReaches(g: Deps)
    ensures Acyclic(g) <==> forall x :: x in g ==> !ReachesCycle(g, x)
  {
    if !Acyclic(g) {
      var p :| IsCycle(g, p);
      assert OnCycle(g, p[0]);
      assert IsPath(g, [p[0]]) && [p[0]][|[p[0]]| - 1] == p[0];
      assert DependsOn(g, p[0], p[1]);
      assert ReachesCycle(g, p[0]);
    }
  }

  /** Only nodes on cycles depend on nodes on cycles. */
  ghost predicate CyclesClosed(g: Deps) {
    forall x, d :: DependsOn(g, x, d) && OnCycle(g, d) ==> OnCycle(g, x)
  }

  lemma {:induction false} RestOfPath(g: Deps, p: seq<Id>)
    requires IsPath(g, p) && 1 < |p|
    ensures DependsOn(g, p[0], p[1]) && IsPath(g, p[1..])
  {
    assert DependsOn(g, p[0], p[0 + 1]);
    forall n | 0 <= n < |p[1..]| - 1
      ensures DependsOn(g, p[1..][n], p[1..][n + 1])
    {
      assert DependsOn(g, p[n + 1], p[n + 1 + 1]);
    }
  }

  lemma {:induction false} PathIntoCycle(g: Deps, p: seq<Id>)
    requires CyclesClosed(g) && IsPath(g, p) && OnCycle(g, p[|p| - 1])
    ensures OnCycle(g, p[0])
  {
    if 1 < |p| {
      RestOfPath(g, p);
      PathIntoCycle(g, p[1..]);
    }
  }

  lemma {:induction false} DependencyReachesCycle(g: Deps, x: Id, d: Id)
    requires DependsOn(g, x, d) && OnCycle(g, d)
    ensures ReachesCycle(g, x)
  {
    var p := [x, d];
    assert IsPath(g, p) && p[|p| - 1] == d;
  }

  /** Whatever reaches a cycle lies on one if and only if cycles are closed in this sense. */
  lemma {:induction false} ReachedOnlyFromCycles(g: Deps)
    ensures (forall x :: ReachesCycle(g, x) ==> OnCycle(g, x)) <==> CyclesClosed(g)
  {
    if CyclesClosed(g) {
      forall x | ReachesCycle(g, x)
        ensures OnCycle(g, x)
      {
        var p :| IsPath(g, p) && p[0] == x && OnCycle(g, p[|p| - 1]);
        PathIntoCycle(g, p);
      }
    }
    if forall x :: ReachesCycle(g, x) ==> OnCycle(g, x) {
      forall x, d | DependsOn(g, x, d) && OnCycle(g, d)
        ensures OnCycle(g, x)
      {
        DependencyReachesCycle(g, x, d);
      }
    }
  }
}
