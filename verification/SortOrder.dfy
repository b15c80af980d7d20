/** The order that `topological_sort` returns is the only one with its properties.
    Over crates/cuartel-core/src/pipeline.rs, lines 142 to 184. */
module SortOrder {
  import opened Graph
  import opened Pipeline
  import opened TopologicalSort

  /** What `Sort` promises of its result. */
  ghost predicate IsSorted(stages: seq<PipelineStage>, order: seq<Id>) {
    && IsTopologicalOrder(stages, order)
    && RootsFirst(DepsOf(stages), order) && InQueueOrder(stages, DepsOf(stages), order, order)
  }

  /** The last dependency of a stage, if all of them are among the first `n`. */
  lemma {:induction false} LastDependency(g: Deps, order: seq<Id>, x: Id, n: nat) returns (k: nat)
    requires n <= |order| && x in g && g[x] != [] && forall d :: DependsOn(g, x, d) ==> d in order[..n]
    ensures k < n && ReleasedBy(g, order, x, k)
  {
    assert DependsOn(g, x, g[x][0]);
    if DependsOn(g, x, order[n - 1]) {
      k := n - 1;
    } else {
      forall d | DependsOn(g, x, d)
        ensures d in order[..n - 1]
      {
        assert order[..n] == order[..n - 1] + [order[n - 1]];
      }
      k := LastDependency(g, order, x, n - 1);
    }
  }

  lemma {:induction false} SamePlace(g: Deps, a: seq<Id>, b: seq<Id>, x: Id, n: nat, k: nat)
    requires k < n <= |a| && n <= |b| && a[..n] == b[..n] && ReleasedBy(g, a, x, k)
    ensures ReleasedBy(g, b, x, k)
  {
    assert a[..n][k] == b[..n][k];
    assert a[..k + 1] == a[..n][..k + 1] && b[..k + 1] == b[..n][..k + 1];
  }

  lemma {:induction false} NotBothBefore(stages: seq<PipelineStage>, x: Id, y: Id)
    requires UniqueIds(stages) && StageBefore(stages, x, y)
    ensures !StageBefore(stages, y, x)
  {
  }

  /** Where an element of one order that is not among the first `n` stands in the other. */
  lemma {:induction false} LaterPlace(stages: seq<PipelineStage>, a: seq<Id>, b: seq<Id>, n: nat) returns (j: nat)
    requires IsTopologicalOrder(stages, a) && IsTopologicalOrder(stages, b)
    requires n < |a| && a[..n] == b[..n] && a[n] != b[n]
    ensures n < j < |b| && b[j] == a[n]
  {
    assert a[n] in Elements(a);
    j :| 0 <= j < |b| && b[j] == a[n];
    assert a[n] !in a[..n];
    assert forall k :: 0 <= k < n ==> b[k] in b[..n];
  }

  lemma {:induction false} RootComesFirst(stages: seq<PipelineStage>, a: seq<Id>, b: seq<Id>, n: nat, i: nat, j: nat)
    requires IsSorted(stages, a) && IsSorted(stages, b)
    requires n < i < |a| && n < j < |b| && a[i] == b[n] && b[j] == a[n]
    ensures !IsRoot(DepsOf(stages), a[n])
  {
    var g := DepsOf(stages);
    if IsRoot(g, a[n]) {
      assert IsRoot(g, b[n]) && IdLess(b[n], b[j]);
      assert IdLess(a[n], a[i]);
      IdLessTransitive(a[n], b[n], a[n]);
      IdLessIrreflexive(a[n]);
      assert false;
    }
  }

  lemma {:induction false} DepsEarlier(stages: seq<PipelineStage>, order: seq<Id>, n: nat) returns (k: nat)
    requires IsTopologicalOrder(stages, order) && n < |order| && !IsRoot(DepsOf(stages), order[n])
    ensures k < n && ReleasedBy(DepsOf(stages), order, order[n], k)
  {
    assert order[n] in Elements(order);
    k := LastDependency(DepsOf(stages), order, order[n], n);
  }

  lemma {:induction false} NextIsSame(stages: seq<PipelineStage>, a: seq<Id>, b: seq<Id>, n: nat)
    requires UniqueIds(stages) && IsSorted(stages, a) && IsSorted(stages, b)
    requires n < |a| && a[..n] == b[..n]
    ensures a[n] == b[n]
  {
    if a[n] != b[n] {
      var g := DepsOf(stages);
      var j := LaterPlace(stages, a, b, n);
      var i := LaterPlace(stages, b, a, n);
      RootComesFirst(stages, a, b, n, i, j);
      RootComesFirst(stages, b, a, n, j, i);
      var k := DepsEarlier(stages, a, n);
      var l := DepsEarlier(stages, b, n);
      SamePlace(g, a, b, a[n], n, k);
      SamePlace(g, b, a, b[n], n, l);
      assert k < l || (k == l && StageBefore(stages, a[n], a[i]));
      assert l < k || (l == k && StageBefore(stages, b[n], b[j]));
      NotBothBefore(stages, a[n], b[n]);
      assert false;
    }
  }

  lemma {:induction false} SamePrefix(stages: seq<PipelineStage>, a: seq<Id>, b: seq<Id>, n: nat)
    requires UniqueIds(stages) && IsSorted(stages, a) && IsSorted(stages, b) && n <= |a|
    ensures a[..n] == b[..n]
  {
    if 0 < n {
      SamePrefix(stages, a, b, n - 1);
      NextIsSame(stages, a, b, n - 1);
      assert a[..n] == a[..n - 1] + [a[n - 1]] && b[..n] == b[..n - 1] + [b[n - 1]];
    }
  }

  /** Two orders with what `Sort` promises are the same: the roots in id order, then each
      stage by the place of its last dependency and, where that is the same, in the order of
      the pipeline. */
  lemma {:induction false} OrderIsDetermined(stages: seq<PipelineStage>, a: seq<Id>, b: seq<Id>)
    requires UniqueIds(stages) && IsSorted(stages, a) && IsSorted(stages, b)
    ensures a == b
  {
    SamePrefix(stages, a, b, |a|);
    assert a[..|a|] == a && b[..|a|] == b;
  }
}
