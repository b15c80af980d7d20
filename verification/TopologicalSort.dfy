/** Kahn's algorithm with a FIFO queue, as `topological_sort` runs it, and `validate`.
    Models crates/cuartel-core/src/pipeline.rs, lines 94 to 188. */
module TopologicalSort {
  import opened Wrappers
  import opened Graph
  import opened Pipeline

  /** Entries of `deps[x]` that name `d`; an id without an entry has none. */
  function Entries(deps: map<Id, seq<Id>>, d: Id, x: Id): nat {
    if d in deps then Occurrences(deps[d], x) else 0
  }

  /** `dependents` inverts the dependency lists, repetitions included. */
  ghost predicate Inverts(dependents: map<Id, seq<Id>>, g: Deps) {
    forall d, x {:trigger Entries(dependents, d, x)} ::
      Entries(dependents, d, x) == if x in g then Occurrences(g[x], d) else 0
  }

  /** The pipeline has a stage `x` before a stage `y`. */
  ghost predicate StageBefore(stages: seq<PipelineStage>, x: Id, y: Id) {
    exists m, n :: 0 <= m < n < |stages| && stages[m].id == x && stages[n].id == y
  }

  /** The list names stages of the pipeline, in its order, repetitions side by side. */
  ghost predicate InStageOrder(stages: seq<PipelineStage>, list: seq<Id>) {
    && (forall x :: x in list ==> x in Ids(stages))
    && forall k, l :: 0 <= k < l < |list| ==> list[k] == list[l] || StageBefore(stages, list[k], list[l])
  }

  ghost predicate AllInStageOrder(stages: seq<PipelineStage>, dependents: map<Id, seq<Id>>) {
    forall d :: d in dependents ==> InStageOrder(stages, dependents[d])
  }

  lemma {:induction false} MoreStages(stages: seq<PipelineStage>, stage: PipelineStage, list: seq<Id>)
    requires InStageOrder(stages, list)
    ensures InStageOrder(stages + [stage], list)
    ensures forall x :: x in list ==> StageBefore(stages + [stage], x, stage.id)
  {
    var more := stages + [stage];
    IdsPush(stages, stage);
    forall k, l | 0 <= k < l < |list| && list[k] != list[l]
      ensures StageBefore(more, list[k], list[l])
    {
      assert StageBefore(stages, list[k], list[l]);
      var m, n :| 0 <= m < n < |stages| && stages[m].id == list[k] && stages[n].id == list[l];
      assert more[m].id == list[k] && more[n].id == list[l];
    }
    forall x | x in list
      ensures StageBefore(more, x, stage.id)
    {
      var s :| s in stages && s.id == x;
      var m :| 0 <= m < |stages| && stages[m] == s;
      assert more[m].id == x && more[|stages|].id == stage.id;
    }
  }

  /** A list to whose end the last stage can be added. */
  ghost predicate Extensible(stages: seq<PipelineStage>, id: Id, list: seq<Id>) {
    InStageOrder(stages, list) && forall x :: x in list ==> x == id || StageBefore(stages, x, id)
  }

  ghost predicate AllExtensible(stages: seq<PipelineStage>, id: Id, dependents: map<Id, seq<Id>>) {
    forall d :: d in dependents ==> Extensible(stages, id, dependents[d])
  }

  lemma {:induction false} ExtendList(stages: seq<PipelineStage>, id: Id, list: seq<Id>)
    requires Extensible(stages, id, list) && id in Ids(stages)
    ensures Extensible(stages, id, list + [id])
  {
  }

  lemma {:induction false} AddingStage(
      stages: seq<PipelineStage>, more: seq<PipelineStage>, stage: PipelineStage, dependents: map<Id, seq<Id>>)
    requires AllInStageOrder(stages, dependents) && more == stages + [stage]
    ensures AllExtensible(more, stage.id, dependents) && stage.id in Ids(more)
  {
    IdsPush(stages, stage);
    forall d | d in dependents
      ensures Extensible(more, stage.id, dependents[d])
    {
      MoreStages(stages, stage, dependents[d]);
    }
  }

  /** The list of an id, or an empty one. */
  function ListOf(dependents: map<Id, seq<Id>>, d: Id): seq<Id> {
    if d in dependents then dependents[d] else []
  }

  lemma {:induction false} ExtendOne(
      stages: seq<PipelineStage>, id: Id, dependents: map<Id, seq<Id>>, dep: Id)
    requires AllExtensible(stages, id, dependents) && id in Ids(stages)
    ensures AllExtensible(stages, id, dependents[dep := ListOf(dependents, dep) + [id]])
  {
    ExtendList(stages, id, ListOf(dependents, dep));
  }

  lemma {:induction false} InvertsOneMore(dependents: map<Id, seq<Id>>, g: Deps, id: Id, deps: seq<Id>, k: nat)
    requires k < |deps| && Inverts(dependents, g[id := deps[..k]])
    ensures Inverts(dependents[deps[k] := ListOf(dependents, deps[k]) + [id]], g[id := deps[..k + 1]])
  {
    var dep := deps[k];
    var list := ListOf(dependents, dep);
    var after := dependents[dep := list + [id]];
    forall d, x
      ensures Entries(after, d, x)
           == if x in g[id := deps[..k + 1]] then Occurrences(g[id := deps[..k + 1]][x], d) else 0
    {
      assert Entries(dependents, d, x) == if x in g[id := deps[..k]] then Occurrences(g[id := deps[..k]][x], d) else 0;
      OccurrencesPush(list, id, x);
      OccurrencesPush(deps[..k], dep, d);
      assert deps[..k + 1] == deps[..k] + [dep];
      assert Occurrences([], x) == 0;
    }
  }

  lemma {:induction false} NothingListed(dependents: map<Id, seq<Id>>, g: Deps, id: Id)
    requires id !in g && Inverts(dependents, g)
    ensures Inverts(dependents, g[id := []])
  {
    forall d, x
      ensures Entries(dependents, d, x) == if x in g[id := []] then Occurrences(g[id := []][x], d) else 0
    {
      assert Entries(dependents, d, x) == if x in g then Occurrences(g[x], d) else 0;
      assert Occurrences([], d) == 0;
    }
  }

  /** Count the dependencies of one stage and list it under each of them. */
  method AddStage(stage: PipelineStage, inDegree: map<Id, nat>, dependents: map<Id, seq<Id>>,
                  ghost g: Deps, ghost stages: seq<PipelineStage>, ghost more: seq<PipelineStage>)
    returns (inDegree': map<Id, nat>, dependents': map<Id, seq<Id>>)
    requires stage.id !in g && stage.id !in inDegree && Inverts(dependents, g)
    requires AllInStageOrder(stages, dependents) && more == stages + [stage]
    ensures inDegree' == inDegree[stage.id := |stage.dependsOn|]
    ensures Inverts(dependents', g[stage.id := stage.dependsOn])
    ensures AllInStageOrder(more, dependents')
  {
    var id, deps := stage.id, stage.dependsOn;
    inDegree', dependents' := inDegree[id := 0], dependents;
    AddingStage(stages, more, stage, dependents);
    NothingListed(dependents, g, id);
    assert deps[..0] == [];
    for k := 0 to |deps|
      invariant inDegree' == inDegree[id := k]
      invariant Inverts(dependents', g[id := deps[..k]])
      invariant AllExtensible(more, id, dependents')
    {
      var dep := deps[k];
      inDegree' := inDegree'[id := inDegree'[id] + 1];
      InvertsOneMore(dependents', g, id, deps, k);
      ExtendOne(more, id, dependents', dep);
      var list := if dep in dependents' then dependents'[dep] else [];
      dependents' := dependents'[dep := list + [id]];
    }
    assert deps[..|deps|] == deps;
  }

  lemma {:induction false} DepsPush(stages: seq<PipelineStage>, stage: PipelineStage)
    requires stage.id !in DepsOf(stages)
    ensures DepsOf(stages + [stage]) == DepsOf(stages)[stage.id := stage.dependsOn]
  {
    var more := stages + [stage];
    assert more[..|more| - 1] == stages;
  }

  lemma {:induction false} NextStage(stages: seq<PipelineStage>, i: nat, seen: seq<PipelineStage>)
    requires UniqueIds(stages) && i < |stages| && seen == stages[..i]
    ensures stages[i].id !in DepsOf(seen) && seen + [stages[i]] == stages[..i + 1]
    ensures DepsOf(seen + [stages[i]]) == DepsOf(seen)[stages[i].id := stages[i].dependsOn]
  {
    IdIsNew(stages, i);
    DepsPush(seen, stages[i]);
  }

  lemma {:induction false} ElementsInsert(keys: seq<Id>, id: Id)
    requires Ascending(keys) && id !in Elements(keys)
    ensures Ascending(InsertKey(keys, id)) && Elements(InsertKey(keys, id)) == Elements(keys) + {id}
  {
    InsertKeyAscending(keys, id);
  }

  /** The tables of the stages seen so far. */
  ghost predicate Tabulated(
      stages: seq<PipelineStage>, g: Deps, inDegree: map<Id, nat>, dependents: map<Id, seq<Id>>, keys: seq<Id>)
  {
    && inDegree.Keys == g.Keys == Ids(stages)
    && (forall x :: x in inDegree ==> inDegree[x] == |g[x]|)
    && Inverts(dependents, g) && AllInStageOrder(stages, dependents)
    && Ascending(keys) && Elements(keys) == Ids(stages)
  }

  lemma {:induction false} NoneTabulated()
    ensures Tabulated([], map[], map[], map[], [])
  {
  }

  /** One more stage. */
  method TabulateStage(stage: PipelineStage, inDegree: map<Id, nat>, dependents: map<Id, seq<Id>>, keys: seq<Id>,
                       ghost stages: seq<PipelineStage>, ghost g: Deps)
    returns (inDegree': map<Id, nat>, dependents': map<Id, seq<Id>>, keys': seq<Id>)
    requires Tabulated(stages, g, inDegree, dependents, keys) && stage.id !in g
    ensures Tabulated(stages + [stage], g[stage.id := stage.dependsOn], inDegree', dependents', keys')
  {
    IdsPush(stages, stage);
    ElementsInsert(keys, stage.id);
    keys' := InsertKey(keys, stage.id);
    inDegree', dependents' := AddStage(stage, inDegree, dependents, g, stages, stages + [stage]);
  }

  /** The first loop: in-degrees and dependents of all stages, and the ids in key order. */
  method Tabulate(stages: seq<PipelineStage>)
    returns (inDegree: map<Id, nat>, dependents: map<Id, seq<Id>>, keys: seq<Id>)
    requires UniqueIds(stages)
    ensures inDegree.Keys == Ids(stages)
    ensures forall x :: x in inDegree ==> inDegree[x] == |DepsOf(stages)[x]|
    ensures Inverts(dependents, DepsOf(stages)) && AllInStageOrder(stages, dependents)
    ensures Ascending(keys) && Elements(keys) == Ids(stages)
  {
    inDegree, dependents, keys := map[], map[], [];
    NoneTabulated();
    ghost var seen: seq<PipelineStage>, g: Deps := [], map[];
    for i := 0 to |stages|
      invariant seen == stages[..i] && g == DepsOf(seen)
      invariant Tabulated(seen, g, inDegree, dependents, keys)
    {
      NextStage(stages, i, seen);
      inDegree, dependents, keys := TabulateStage(stages[i], inDegree, dependents, keys, seen, g);
      seen, g := seen + [stages[i]], g[stages[i].id := stages[i].dependsOn];
    }
    assert seen == stages;
  }

  /** Without dependencies. */
  predicate IsRoot(g: Deps, x: Id) { x in g && g[x] == [] }

  /** The ids of in-degree zero, in key order. */
  method Roots(keys: seq<Id>, inDegree: map<Id, nat>, ghost g: Deps) returns (queue: seq<Id>)
    requires Ascending(keys) && Elements(keys) == inDegree.Keys == g.Keys
    requires forall x :: x in inDegree ==> inDegree[x] == |g[x]|
    ensures Ascending(queue)
    ensures forall x :: x in queue <==> IsRoot(g, x)
  {
    queue := [];
    for i := 0 to |keys|
      invariant Ascending(queue)
      invariant forall x :: x in queue <==> x in keys[..i] && IsRoot(g, x)
    {
      assert keys[i] in Elements(keys);
      if inDegree[keys[i]] == 0 {
        forall x | x in queue
          ensures IdLess(x, keys[i])
        {
          var k :| 0 <= k < i && keys[k] == x;
        }
        queue := queue + [keys[i]];
      }
    }
    assert forall x :: x in keys <==> x in Elements(keys);
  }

  // ---------- the state of the main loop ----------

  /** The in-degree of each stage is the number of its entries not yet emitted, less
      those already taken off for the first `k` dependents of the stage being emitted. */
  ghost predicate Counts(g: Deps, inDegree: map<Id, nat>, done: set<Id>, taken: seq<Id>) {
    && inDegree.Keys == g.Keys
    && forall x :: x in g ==> inDegree[x] + Occurrences(taken, x) == OpenCount(g[x], done)
  }

  /** Stages in the queue or in the order are those of in-degree zero. */
  ghost predicate ZeroesQueued(inDegree: map<Id, nat>, order: seq<Id>, queue: seq<Id>) {
    && Distinct(order + queue)
    && forall x :: x in order + queue <==> x in inDegree && inDegree[x] == 0
  }

  ghost predicate DepsEmitted(g: Deps, order: seq<Id>, queue: seq<Id>) {
    forall x, d :: x in queue && DependsOn(g, x, d) ==> d in order
  }

  /** Emission and queueing go by depth. */
  ghost predicate ByDepth(g: Deps, s: seq<Id>) {
    forall i, j :: 0 <= i < j < |s| ==> NoDeeper(g, s[i], s[j])
  }

  /** Roots stand first, in id order. */
  ghost predicate RootsFirst(g: Deps, s: seq<Id>) {
    forall i, j :: 0 <= i < j < |s| && IsRoot(g, s[j]) ==> IsRoot(g, s[i]) && IdLess(s[i], s[j])
  }

  /** A stage queued on account of the last emitted stage is at least as deep as
      everything queued before it. */
  lemma {:induction false} QueuedIsDeepest(g: Deps, order: seq<Id>, queue: seq<Id>, x: Id)
    requires order != [] && DependsOn(g, x, order[|order| - 1])
    requires DepsEmitted(g, order, queue) && ByDepth(g, order)
    ensures forall y :: y in order + queue ==> NoDeeper(g, y, x)
  {
    var id := order[|order| - 1];
    forall y, k: nat | y in order + queue && HasChain(g, y, k)
      ensures HasChain(g, x, k)
    {
      if y in order {
        var i :| 0 <= i < |order| && order[i] == y;
        assert i < |order| - 1 ==> NoDeeper(g, y, id);
        assert HasChain(g, id, k);
        assert HasChain(g, x, k + 1);
        ShorterChain(g, x, k);
      } else if k != 0 {
        var d :| DependsOn(g, y, d) && HasChain(g, d, k - 1);
        assert d in order;
        var i :| 0 <= i < |order| && order[i] == d;
        assert i < |order| - 1 ==> NoDeeper(g, d, id);
        assert HasChain(g, id, k - 1);
      }
    }
  }

  lemma {:induction false} DistinctParts(a: seq<Id>, b: seq<Id>)
    requires Distinct(a + b)
    ensures Distinct(a) && Distinct(b)
    ensures forall x :: x in a ==> x !in b
  {
    assert forall i :: 0 <= i < |a| ==> (a + b)[i] == a[i];
    assert forall i :: 0 <= i < |b| ==> (a + b)[|a| + i] == b[i];
  }

  lemma {:induction false} LastIsNew(order: seq<Id>)
    requires order != []
    ensures Elements(order) == Elements(order[..|order| - 1]) + {order[|order| - 1]}
    ensures Distinct(order) ==> order[|order| - 1] !in Elements(order[..|order| - 1])
  {
  }

  /** The `k`-th dependent still has an open entry, so the decrement does not underflow. */
  lemma {:induction false} EntryOpen(g: Deps, list: seq<Id>, k: nat, done: set<Id>, id: Id)
    requires k < |list| && id !in done
    requires Occurrences(list, list[k]) == if list[k] in g then Occurrences(g[list[k]], id) else 0
    ensures list[k] in g && DependsOn(g, list[k], id)
    ensures Occurrences(list[..k], list[k]) < Occurrences(g[list[k]], id) <= OpenCount(g[list[k]], done)
  {
    var x := list[k];
    assert list[..k + 1] == list[..k] + [x];
    OccurrencesPush(list[..k], x, x);
    OccurrencesPrefix(list, k + 1, x);
    Occurs(g[x], id);
    OpenCountStep(g[x], done, id);
  }

  /** Queueing the stage whose last open entry was taken off keeps the invariant. */
  lemma {:induction false} QueueOne(
      g: Deps, order: seq<Id>, queue: seq<Id>, before: map<Id, nat>, after: map<Id, nat>, dep: Id,
                 done: set<Id>, list: seq<Id>, k: nat)
    requires order != [] && done == Elements(order[..|order| - 1]) && k < |list| && list[k] == dep
    requires ZeroesQueued(before, order, queue) && dep in before && dep in g && before[dep] == 1
    requires after == before[dep := 0]
    requires DependsOn(g, dep, order[|order| - 1])
    requires 0 + Occurrences(list[..k + 1], dep) == OpenCount(g[dep], done)
    requires Occurrences(list, dep) == Occurrences(g[dep], order[|order| - 1])
    requires DepsEmitted(g, order, queue) && ByDepth(g, order + queue) && RootsFirst(g, order + queue)
    ensures ZeroesQueued(after, order, queue + [dep])
    ensures DepsEmitted(g, order, queue + [dep])
    ensures ByDepth(g, order + (queue + [dep])) && RootsFirst(g, order + (queue + [dep]))
  {
    var id := order[|order| - 1];
    assert order + (queue + [dep]) == (order + queue) + [dep];
    assert dep !in order + queue;
    DistinctParts(order, queue);
    LastIsNew(order);
    OccurrencesPrefix(list, k + 1, dep);
    OpenCountStep(g[dep], done, id);
    OpenCountZero(g[dep], done + {id});
    assert ByDepth(g, order) by {
      assert forall i :: 0 <= i < |order| ==> (order + queue)[i] == order[i];
    }
    QueuedIsDeepest(g, order, queue, dep);
    assert forall i :: 0 <= i < |order + queue| ==> (order + queue)[i] in order + queue;
  }

  // ---------- the order within a depth ----------

  /** Place `k` is that of the last dependency of `x` in the order. */
  ghost predicate ReleasedBy(g: Deps, order: seq<Id>, x: Id, k: nat) {
    k < |order| && DependsOn(g, x, order[k]) && forall d :: DependsOn(g, x, d) ==> d in order[..k + 1]
  }

  /** What was released earlier stands first, and what was released together stands in the
      order of the pipeline. */
  ghost predicate InQueueOrder(stages: seq<PipelineStage>, g: Deps, order: seq<Id>, s: seq<Id>) {
    forall i, j, a, b ::
      0 <= i < j < |s| && ReleasedBy(g, order, s[i], a) && ReleasedBy(g, order, s[j], b) ==>
        a < b || (a == b && StageBefore(stages, s[i], s[j]))
  }

  /** What is queued when `order` ends with the stage being emitted, and depends on it, has
      been listed before place `k` of its dependents. */
  ghost predicate ListedAlready(g: Deps, order: seq<Id>, queue: seq<Id>, list: seq<Id>, k: nat)
    requires order != [] && k <= |list|
  {
    forall x :: x in order + queue && DependsOn(g, x, order[|order| - 1]) ==> x in list[..k]
  }

  /** The order grows by a stage that nothing in the queue depends on. */
  lemma {:induction false} EmissionKeepsOrder(
      stages: seq<PipelineStage>, g: Deps, order: seq<Id>, queue: seq<Id>, list: seq<Id>)
    requires queue != [] && Distinct(order + queue) && DependenciesFirst(g, order) && DepsEmitted(g, order, queue)
    requires InQueueOrder(stages, g, order, order + queue)
    ensures var order' := order + [queue[0]];
      && InQueueOrder(stages, g, order', order' + queue[1..])
      && ListedAlready(g, order', queue[1..], list, 0)
  {
    var id, order', s := queue[0], order + [queue[0]], order + queue;
    assert s == order' + queue[1..];
    DistinctParts(order, queue);
    forall x, d | x in s && DependsOn(g, x, d)
      ensures d in order
    {
      if x in order {
        var i :| 0 <= i < |order| && order[i] == x;
        assert d in order[..i];
      }
    }
    forall i, a: nat | 0 <= i < |s| && ReleasedBy(g, order', s[i], a)
      ensures ReleasedBy(g, order, s[i], a)
    {
      assert s[i] in s && a < |order|;
      assert order'[..a + 1] == order[..a + 1];
    }
  }

  lemma {:induction false} QueueKeepsOrder(
      stages: seq<PipelineStage>, g: Deps, order: seq<Id>, queue: seq<Id>, dep: Id, list: seq<Id>, k: nat)
    requires order != [] && Distinct(order) && k < |list| && list[k] == dep && InStageOrder(stages, list)
    requires dep !in order + queue && DependsOn(g, dep, order[|order| - 1])
    requires InQueueOrder(stages, g, order, order + queue) && ListedAlready(g, order, queue, list, k)
    ensures InQueueOrder(stages, g, order, order + (queue + [dep]))
    ensures ListedAlready(g, order, queue + [dep], list, k + 1)
  {
    var s, more, last := order + queue, order + (queue + [dep]), |order| - 1;
    assert more == s + [dep] && list[..k + 1] == list[..k] + [dep];
    forall i, j, a, b | 0 <= i < j < |more| && ReleasedBy(g, order, more[i], a) && ReleasedBy(g, order, more[j], b)
      ensures a < b || (a == b && StageBefore(stages, more[i], more[j]))
    {
      if j == |s| {
        assert order[last] in order[..b + 1];
        assert b == last;
        if a == last {
          assert more[i] in s && more[i] in list[..k];
          var l :| 0 <= l < k && list[l] == more[i];
        }
      }
    }
  }

  lemma {:induction false} StillListed(g: Deps, order: seq<Id>, queue: seq<Id>, list: seq<Id>, k: nat)
    requires order != [] && k < |list| && ListedAlready(g, order, queue, list, k)
    ensures ListedAlready(g, order, queue, list, k + 1)
  {
    assert list[..k + 1] == list[..k] + [list[k]];
  }

  /** What holds of the order and the queue. */
  ghost predicate Queued(
      stages: seq<PipelineStage>, g: Deps, inDegree: map<Id, nat>, order: seq<Id>, queue: seq<Id>)
  {
    && ZeroesQueued(inDegree, order, queue) && DepsEmitted(g, order, queue)
    && ByDepth(g, order + queue) && RootsFirst(g, order + queue) && InQueueOrder(stages, g, order, order + queue)
  }

  /** The dependents of the stage emitted last, one for each of their entries. */
  ghost predicate ListsDependents(stages: seq<PipelineStage>, g: Deps, list: seq<Id>, id: Id) {
    && (forall x :: Occurrences(list, x) == if x in g then Occurrences(g[x], id) else 0)
    && InStageOrder(stages, list)
  }

  lemma {:induction false} TakeOne(
      stages: seq<PipelineStage>, g: Deps, inDegree: map<Id, nat>, done: set<Id>, list: seq<Id>, k: nat, id: Id)
    requires k < |list| && id !in done && ListsDependents(stages, g, list, id) && Counts(g, inDegree, done, list[..k])
    ensures list[k] in inDegree && 1 <= inDegree[list[k]] && DependsOn(g, list[k], id)
    ensures Counts(g, inDegree[list[k] := inDegree[list[k]] - 1], done, list[..k + 1])
  {
    EntryOpen(g, list, k, done, id);
    assert list[..k + 1] == list[..k] + [list[k]];
    forall x
      ensures Occurrences(list[..k + 1], x) == Occurrences(list[..k], x) + (if list[k] == x then 1 else 0)
    {
      OccurrencesPush(list[..k], list[k], x);
    }
  }

  lemma {:induction false} QueueReleased(
      stages: seq<PipelineStage>, g: Deps, inDegree: map<Id, nat>, order: seq<Id>, queue: seq<Id>, done: set<Id>,
      list: seq<Id>, k: nat)
    requires order != [] && done == Elements(order[..|order| - 1]) && k < |list|
    requires ListsDependents(stages, g, list, order[|order| - 1]) && DependsOn(g, list[k], order[|order| - 1])
    requires list[k] in inDegree && inDegree[list[k]] == 1
    requires Counts(g, inDegree[list[k] := 0], done, list[..k + 1])
    requires Queued(stages, g, inDegree, order, queue) && ListedAlready(g, order, queue, list, k)
    ensures Queued(stages, g, inDegree[list[k] := 0], order, queue + [list[k]])
    ensures ListedAlready(g, order, queue + [list[k]], list, k + 1)
  {
    var dep := list[k];
    DistinctParts(order, queue);
    QueueOne(g, order, queue, inDegree, inDegree[dep := 0], dep, done, list, k);
    QueueKeepsOrder(stages, g, order, queue, dep, list, k);
  }

  lemma {:induction false} StillQueued(
      stages: seq<PipelineStage>, g: Deps, inDegree: map<Id, nat>, order: seq<Id>, queue: seq<Id>, x: Id, n: nat)
    requires Queued(stages, g, inDegree, order, queue) && x in inDegree && inDegree[x] != 0 && n != 0
    ensures Queued(stages, g, inDegree[x := n], order, queue)
  {
  }

  lemma {:induction false} AllTaken(
      stages: seq<PipelineStage>, g: Deps, inDegree: map<Id, nat>, done: set<Id>, list: seq<Id>, id: Id)
    requires id !in done && ListsDependents(stages, g, list, id) && Counts(g, inDegree, done, list)
    ensures Counts(g, inDegree, done + {id}, [])
  {
    forall x | x in g
      ensures inDegree[x] == OpenCount(g[x], done + {id})
    {
      OpenCountStep(g[x], done, id);
    }
  }

  /** The inner loop: one entry is taken off for each dependent of the stage just
      emitted, and those that reach zero are queued. */
  method Release(list: seq<Id>, inDegree: map<Id, nat>, queue: seq<Id>,
                 ghost stages: seq<PipelineStage>, ghost g: Deps, ghost order: seq<Id>, ghost done: set<Id>)
    returns (inDegree': map<Id, nat>, queue': seq<Id>)
    requires order != [] && done == Elements(order[..|order| - 1]) && order[|order| - 1] !in done
    requires ListsDependents(stages, g, list, order[|order| - 1])
    requires Counts(g, inDegree, done, []) && Queued(stages, g, inDegree, order, queue)
    requires ListedAlready(g, order, queue, list, 0)
    ensures Counts(g, inDegree', done + {order[|order| - 1]}, []) && Queued(stages, g, inDegree', order, queue')
  {
    ghost var id := order[|order| - 1];
    inDegree', queue' := inDegree, queue;
    assert list[..0] == [];
    for k := 0 to |list|
      invariant Counts(g, inDegree', done, list[..k]) && Queued(stages, g, inDegree', order, queue')
      invariant ListedAlready(g, order, queue', list, k)
    {
      var dep := list[k];
      TakeOne(stages, g, inDegree', done, list, k, id);
      if inDegree'[dep] == 1 {
        QueueReleased(stages, g, inDegree', order, queue', done, list, k);
      } else {
        StillQueued(stages, g, inDegree', order, queue', dep, inDegree'[dep] - 1);
        StillListed(g, order, queue', list, k);
      }
      inDegree' := inDegree'[dep := inDegree'[dep] - 1];
      if inDegree'[dep] == 0 {
        queue' := queue' + [dep];
      }
    }
    assert list[..|list|] == list;
    AllTaken(stages, g, inDegree', done, list, id);
  }

  // ---------- the result ----------

  /** A permutation of the stage ids with every dependency before its dependents. */
  ghost predicate IsTopologicalOrder(stages: seq<PipelineStage>, order: seq<Id>) {
    && |order| == |stages|
    && Distinct(order)
    && Elements(order) == Ids(stages)
    && DependenciesFirst(DepsOf(stages), order)
  }

  /** The ids, in stage order, of the stages from which a dependency cycle can be reached. */
  ghost function ReachingCycle(stages: seq<PipelineStage>, g: Deps): seq<Id> {
    if stages == [] then []
    else (if ReachesCycle(g, stages[0].id) then [stages[0].id] else []) + ReachingCycle(stages[1..], g)
  }

  /** The ids, in stage order, that the order does not contain. */
  function Remaining(stages: seq<PipelineStage>, order: seq<Id>): seq<Id> {
    if stages == [] then []
    else (if stages[0].id in order then [] else [stages[0].id]) + Remaining(stages[1..], order)
  }

  lemma {:induction false} RemainingReachesCycle(stages: seq<PipelineStage>, g: Deps, order: seq<Id>)
    requires forall s :: s in stages ==> (s.id in order <==> !ReachesCycle(g, s.id))
    ensures Remaining(stages, order) == ReachingCycle(stages, g)
  {
    if stages != [] {
      assert stages[0] in stages;
      RemainingReachesCycle(stages[1..], g, order);
    }
  }

  lemma {:induction false} DistinctSize(s: seq<Id>)
    requires Distinct(s)
    ensures |Elements(s)| == |s|
  {
    if s != [] {
      LastIsNew(s);
      DistinctSize(s[..|s| - 1]);
    }
  }

  lemma {:induction false} IdsSize(stages: seq<PipelineStage>)
    requires UniqueIds(stages)
    ensures |Ids(stages)| == |stages|
  {
    if stages != [] {
      var n := |stages| - 1;
      assert stages == stages[..n] + [stages[n]];
      IdsPush(stages[..n], stages[n]);
      IdIsNew(stages, n);
      IdsSize(stages[..n]);
    }
  }

  lemma {:induction false} SameSizeSubset(a: set<Id>, b: set<Id>)
    requires a <= b && |a| == |b|
    ensures a == b
  {
    if a != {} {
      var x :| x in a;
      SameSizeSubset(a - {x}, b - {x});
    }
  }

  lemma {:induction false} SomeMissing(a: set<Id>, b: set<Id>)
    requires a <= b && |a| != |b|
    ensures exists x :: x in b && x !in a
  {
    assert b == a + (b - a);
    assert b - a != {};
    var x :| x in b - a;
  }

  lemma {:induction false} AscendingDistinct(keys: seq<Id>)
    requires Ascending(keys)
    ensures Distinct(keys)
  {
    forall i, j | 0 <= i < j < |keys|
      ensures keys[i] != keys[j]
    {
      IdLessIrreflexive(keys[i]);
    }
  }

  lemma {:induction false} RootIsShallow(g: Deps, x: Id, y: Id)
    requires IsRoot(g, x)
    ensures NoDeeper(g, x, y)
  {
  }

  lemma {:induction false} StartState(g: Deps, inDegree: map<Id, nat>, queue: seq<Id>)
    requires inDegree.Keys == g.Keys && forall x :: x in g ==> inDegree[x] == |g[x]|
    requires Ascending(queue) && forall x :: x in queue <==> IsRoot(g, x)
    ensures Counts(g, inDegree, Elements([]), []) && ZeroesQueued(inDegree, [], queue)
    ensures DepsEmitted(g, [], queue) && ByDepth(g, [] + queue) && RootsFirst(g, [] + queue)
  {
    AscendingDistinct(queue);
    assert [] + queue == queue && Elements([]) == {};
    forall x | x in g
      ensures OpenCount(g[x], {}) == |g[x]|
    {
      OpenCountNoneDone(g[x]);
    }
    assert forall i :: 0 <= i < |queue| ==> queue[i] in queue;
    forall i, j | 0 <= i < j < |queue|
      ensures NoDeeper(g, queue[i], queue[j])
    {
      RootIsShallow(g, queue[i], queue[j]);
    }
  }

  /** With an empty queue, what was not emitted is exactly what reaches a cycle. */
  lemma {:induction false} EndState(g: Deps, inDegree: map<Id, nat>, order: seq<Id>)
    requires Closed(g) && Counts(g, inDegree, Elements(order), []) && ZeroesQueued(inDegree, order, [])
    requires DependenciesFirst(g, order)
    ensures Elements(order) <= g.Keys && Distinct(order)
    ensures forall x :: x in g ==> (x in order <==> !ReachesCycle(g, x))
  {
    assert order + [] == order;
    var stuck := g.Keys - Elements(order);
    forall x | x in stuck
      ensures DependsInto(g, x, stuck)
    {
      OpenCountZero(g[x], Elements(order));
      var d :| d in g[x] && d !in Elements(order);
      assert d in stuck && DependsOn(g, x, d);
    }
    forall x | x in g
      ensures x in order <==> !ReachesCycle(g, x)
    {
      if x in order {
        OrderedAvoidsCycles(g, order, x);
      } else {
        StuckReachesCycle(g, stuck, x);
      }
    }
  }

  /** Moving the head of the queue to the order. */
  lemma {:induction false} EmitNext(g: Deps, inDegree: map<Id, nat>, order: seq<Id>, queue: seq<Id>)
    requires queue != [] && DependenciesFirst(g, order) && DepsEmitted(g, order, queue)
    requires inDegree.Keys == g.Keys && ZeroesQueued(inDegree, order, queue)
    ensures var order' := order + [queue[0]];
      && order + queue == order' + queue[1..] && order'[..|order|] == order
      && DependenciesFirst(g, order') && DepsEmitted(g, order', queue[1..])
      && queue[0] in g && queue[0] !in Elements(order) && Elements(order') == Elements(order) + {queue[0]}
  {
    var order' := order + [queue[0]];
    DistinctParts(order, queue);
    LastIsNew(order');
    assert queue[0] in order + queue;
    forall i, d | 0 <= i < |order'| && DependsOn(g, order'[i], d)
      ensures d in order'[..i]
    {
      assert order'[..i] == order[..i];
      assert order[..|order|] == order;
    }
  }

  lemma {:induction false} ShortOrderLeavesSome(stages: seq<PipelineStage>, order: seq<Id>)
    requires exists x :: x in Ids(stages) && x !in Elements(order)
    ensures Remaining(stages, order) != []
  {
    var x :| x in Ids(stages) && x !in Elements(order);
    var s :| s in stages && s.id == x;
    if s != stages[0] {
      assert s in stages[1..];
      assert s.id in Ids(stages[1..]);
      ShortOrderLeavesSome(stages[1..], order);
    }
  }

  /** What the final comparison of lengths decides. */
  lemma {:induction false} Outcome(stages: seq<PipelineStage>, inDegree: map<Id, nat>, order: seq<Id>)
    requires UniqueIds(stages) && KnownDeps(stages)
    requires Counts(DepsOf(stages), inDegree, Elements(order), []) && ZeroesQueued(inDegree, order, [])
    requires DependenciesFirst(DepsOf(stages), order)
    ensures |order| == |stages| <==> Acyclic(DepsOf(stages))
    ensures |order| == |stages| ==> IsTopologicalOrder(stages, order)
    ensures Remaining(stages, order) == ReachingCycle(stages, DepsOf(stages))
    ensures |order| != |stages| ==> Remaining(stages, order) != []
  {
    var g := DepsOf(stages);
    KnownDepsClosed(stages);
    EndState(g, inDegree, order);
    AcyclicMeansNoneReaches(g);
    DistinctSize(order);
    IdsSize(stages);
    RemainingReachesCycle(stages, g, order);
    if |order| == |stages| {
      SameSizeSubset(Elements(order), Ids(stages));
    } else {
      SomeMissing(Elements(order), Ids(stages));
      ShortOrderLeavesSome(stages, order);
    }
  }

  /** `topological_sort`, which its callers run after the duplicate and unknown checks. */
  method Sort(stages: seq<PipelineStage>) returns (r: Result<seq<Id>, PipelineError>)
    requires UniqueIds(stages) && KnownDeps(stages)
    ensures r.Ok? <==> Acyclic(DepsOf(stages))
    ensures r.Ok? ==>
      && IsTopologicalOrder(stages, r.value)
      && ByDepth(DepsOf(stages), r.value)
      && RootsFirst(DepsOf(stages), r.value)
      && InQueueOrder(stages, DepsOf(stages), r.value, r.value)
    ensures r.Err? ==>
      && r.error == CycleDetected(ReachingCycle(stages, DepsOf(stages)))
      && ReachingCycle(stages, DepsOf(stages)) != []
  {
    var g := DepsOf(stages);
    var inDegree, dependents, keys := Tabulate(stages);
    var queue := Roots(keys, inDegree, g);
    var order: seq<Id> := [];
    StartState(g, inDegree, queue);
    while queue != []
      invariant Counts(g, inDegree, Elements(order), []) && Queued(stages, g, inDegree, order, queue)
      invariant DependenciesFirst(g, order)
      decreases g.Keys - Elements(order)
    {
      EmitNext(g, inDegree, order, queue);
      var id := queue[0];
      ghost var done := Elements(order);
      var list := if id in dependents then dependents[id] else [];
      EmissionKeepsOrder(stages, g, order, queue, list);
      order, queue := order + [id], queue[1..];
      assert forall x :: Occurrences(list, x) == Entries(dependents, id, x);
      inDegree, queue := Release(list, inDegree, queue, stages, g, order, done);
    }
    assert order + [] == order;
    Outcome(stages, inDegree, order);
    if |order| != |stages| {
      return Err(CycleDetected(Remaining(stages, order)));
    } else {
      return Ok(order);
    }
  }

  // ---------- validation ----------

  /** The first stage whose id an earlier stage has. */
  ghost predicate FirstDuplicate(stages: seq<PipelineStage>, id: Id) {
    exists i :: 0 <= i < |stages| && UniqueIds(stages[..i]) && id in Ids(stages[..i]) && stages[i].id == id
  }

  /** `missing` is the first unknown entry of the first stage that has one. */
  ghost predicate FirstUnknown(stages: seq<PipelineStage>, stage: Id, missing: Id) {
    exists i, k :: 0 <= i < |stages| && 0 <= k < |stages[i].dependsOn|
      && stages[i].id == stage && stages[i].dependsOn[k] == missing && missing !in Ids(stages)
      && (forall d :: d in stages[i].dependsOn[..k] ==> d in Ids(stages))
      && (forall s, d :: s in stages[..i] && d in s.dependsOn ==> d in Ids(stages))
  }

  method CheckUnique(stages: seq<PipelineStage>) returns (r: Result<set<Id>, PipelineError>)
    ensures r.Ok? <==> UniqueIds(stages)
    ensures r.Ok? ==> r.value == Ids(stages)
    ensures r.Err? ==> r.error.DuplicateStage? && FirstDuplicate(stages, r.error.id)
  {
    var seen: set<Id> := {};
    for i := 0 to |stages|
      invariant seen == Ids(stages[..i]) && UniqueIds(stages[..i])
    {
      assert stages[..i + 1] == stages[..i] + [stages[i]];
      IdsPush(stages[..i], stages[i]);
      if stages[i].id in seen {
        var s :| s in stages[..i] && s.id == stages[i].id;
        return Err(DuplicateStage(stages[i].id));
      }
      forall k | 0 <= k < i
        ensures stages[k].id != stages[i].id
      {
        assert stages[k] in stages[..i];
      }
      seen := seen + {stages[i].id};
    }
    assert stages[..|stages|] == stages;
    return Ok(seen);
  }

  method CheckKnown(stages: seq<PipelineStage>, seen: set<Id>) returns (r: Result<Unit, PipelineError>)
    requires seen == Ids(stages)
    ensures r.Ok? <==> KnownDeps(stages)
    ensures r.Err? ==> r.error.UnknownDependency? && FirstUnknown(stages, r.error.stage, r.error.missing)
  {
    for i := 0 to |stages|
      invariant forall s, d :: s in stages[..i] && d in s.dependsOn ==> d in seen
    {
      var deps := stages[i].dependsOn;
      for k := 0 to |deps|
        invariant forall d :: d in deps[..k] ==> d in seen
      {
        if deps[k] !in seen {
          assert stages[i] in stages && deps[k] in deps;
          return Err(UnknownDependency(stages[i].id, deps[k]));
        }
      }
      assert deps[..|deps|] == deps;
      assert stages[..i + 1] == stages[..i] + [stages[i]];
    }
    assert stages[..|stages|] == stages;
    return Ok(Unit);
  }

  /** The error is the first that the checks, in their order, come to. */
  ghost predicate Reports(stages: seq<PipelineStage>, error: PipelineError) {
    match error
    case EmptyPipeline => stages == []
    case DuplicateStage(id) => FirstDuplicate(stages, id)
    case UnknownDependency(stage, missing) => UniqueIds(stages) && FirstUnknown(stages, stage, missing)
    case CycleDetected(remaining) =>
      && UniqueIds(stages) && KnownDeps(stages)
      && remaining == ReachingCycle(stages, DepsOf(stages)) && remaining != []
    case _ => false
  }

  /** `Pipeline::validate`: the checks in the source's order. */
  method Validate(stages: seq<PipelineStage>) returns (r: Result<Unit, PipelineError>)
    ensures r.Ok? <==> ValidPipeline(stages)
    ensures r.Err? ==> Reports(stages, r.error)
  {
    if stages == [] {
      return Err(EmptyPipeline);
    }
    var unique := CheckUnique(stages);
    if unique.Err? {
      return Err(unique.error);
    }
    var known := CheckKnown(stages, unique.value);
    if known.Err? {
      return known;
    }
    var sorted := Sort(stages);
    if sorted.Err? {
      return Err(sorted.error);
    }
    return Ok(Unit);
  }

  /** `Pipeline::topological_order`. */
  method TopologicalOrder(stages: seq<PipelineStage>) returns (r: Result<seq<Id>, PipelineError>)
    ensures r.Ok? <==> ValidPipeline(stages)
    ensures r.Ok? ==>
      && IsTopologicalOrder(stages, r.value) && ByDepth(DepsOf(stages), r.value)
      && RootsFirst(DepsOf(stages), r.value) && InQueueOrder(stages, DepsOf(stages), r.value, r.value)
    ensures r.Err? ==> Reports(stages, r.error)
  {
    var valid := Validate(stages);
    if valid.Err? {
      return Err(valid.error);
    }
    r := Sort(stages);
  }

  // ---------- the reported list ----------

  lemma {:induction false} InReachingCycle(stages: seq<PipelineStage>, g: Deps, x: Id)
    ensures x in ReachingCycle(stages, g) <==> x in Ids(stages) && ReachesCycle(g, x)
  {
    if stages != [] {
      InReachingCycle(stages[1..], g, x);
      assert forall s :: s in stages <==> s == stages[0] || s in stages[1..];
    }
  }

  lemma {:induction false} ReachesFromStage(stages: seq<PipelineStage>, x: Id)
    requires ReachesCycle(DepsOf(stages), x)
    ensures x in Ids(stages)
  {
    var g := DepsOf(stages);
    var p :| IsPath(g, p) && p[0] == x && OnCycle(g, p[|p| - 1]);
    if 1 < |p| {
      assert DependsOn(g, p[0], p[0 + 1]);
    } else {
      var c :| IsCycle(g, c) && c[0] == x;
      assert DependsOn(g, c[0], c[0 + 1]);
    }
  }

  /** The list in `CycleDetected` is rendered as a path.  All of it lies on cycles if and only
      if no stage off the cycles depends on a stage of one. */
  lemma {:induction false} ListedOnCyclesExactly(stages: seq<PipelineStage>)
    ensures var g := DepsOf(stages);
      (forall x :: x in ReachingCycle(stages, g) ==> OnCycle(g, x)) <==> CyclesClosed(g)
  {
    var g := DepsOf(stages);
    ReachedOnlyFromCycles(g);
    forall x
      ensures x in ReachingCycle(stages, g) <==> ReachesCycle(g, x)
    {
      InReachingCycle(stages, g, x);
      if ReachesCycle(g, x) {
        ReachesFromStage(stages, x);
      }
    }
  }

  lemma {:induction false} CycleEntersEachNode(g: Deps, x: Id)
    requires OnCycle(g, x)
    ensures exists y :: DependsOn(g, y, x)
  {
    var p :| IsCycle(g, p) && p[0] == x;
    assert DependsOn(g, p[|p| - 2], p[|p| - 2 + 1]);
  }

  /** `a` and `b` depend on each other, and `c` on `a`. */
  function CycleAndMore(): seq<PipelineStage> {
    [PipelineStage("a", ["b"]), PipelineStage("b", ["a"]), PipelineStage("c", ["a"])]
  }

  lemma {:induction false} CycleAndMoreDeps()
    ensures UniqueIds(CycleAndMore()) && KnownDeps(CycleAndMore()) && Ids(CycleAndMore()) == {"a", "b", "c"}
    ensures DepsOf(CycleAndMore()) == map["a" := ["b"], "b" := ["a"], "c" := ["a"]]
  {
    var stages := CycleAndMore();
    assert stages[0] in stages && stages[1] in stages && stages[2] in stages;
    StageDeps(stages, 0);
    StageDeps(stages, 1);
    StageDeps(stages, 2);
  }

  lemma {:induction false} CycleAndMoreGraph(g: Deps)
    requires g == map["a" := ["b"], "b" := ["a"], "c" := ["a"]]
    ensures OnCycle(g, "a") && OnCycle(g, "b") && !OnCycle(g, "c")
    ensures ReachesCycle(g, "a") && ReachesCycle(g, "b") && ReachesCycle(g, "c")
  {
    var c, d := ["a", "b", "a"], ["b", "a", "b"];
    assert IsCycle(g, c) && c[0] == "a";
    assert IsCycle(g, d) && d[0] == "b";
    DependencyReachesCycle(g, "a", "b");
    DependencyReachesCycle(g, "b", "a");
    DependencyReachesCycle(g, "c", "a");
    if OnCycle(g, "c") {
      CycleEntersEachNode(g, "c");
    }
  }

  lemma {:induction false} AllListed(stages: seq<PipelineStage>, g: Deps)
    requires forall x :: x in Ids(stages) ==> ReachesCycle(g, x)
    ensures forall x :: x in ReachingCycle(stages, g) <==> x in Ids(stages)
  {
    forall x
      ensures x in ReachingCycle(stages, g) <==> x in Ids(stages)
    {
      InReachingCycle(stages, g, x);
    }
  }

  /** For these stages the whole pipeline is listed, `c` included, which lies on no cycle. */
  lemma {:induction false} ListedOffCycle(stages: seq<PipelineStage>)
    requires stages == CycleAndMore()
    ensures UniqueIds(stages) && KnownDeps(stages) && Ids(stages) == {"a", "b", "c"}
    ensures forall x :: x in ReachingCycle(stages, DepsOf(stages)) <==> x in Ids(stages)
    ensures !OnCycle(DepsOf(stages), "c")
  {
    CycleAndMoreDeps();
    CycleAndMoreGraph(DepsOf(stages));
    AllListed(stages, DepsOf(stages));
  }
}
