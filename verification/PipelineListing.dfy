/** When `runnable_stages` lists a stage that `start_stage` refuses.  Both read the same
    run, but where ids are repeated `start_stage` looks at the first stage with an id and
    `runnable_stages` at each of them.
    Over crates/cuartel-core/src/pipeline.rs, lines 298 to 447. */
module PipelineListing {
  import opened Wrappers
  import opened Graph
  import opened Pipeline
  import opened TopologicalSort
  import opened PipelineRuns
  import opened PipelineProgress

  /** Some path leads from one of the ids to `y`. */
  ghost predicate Below(g: Deps, from: seq<Id>, y: Id) {
    exists path :: IsPath(g, path) && path[0] in from && path[|path| - 1] == y
  }

  /** Everything below the stage can be completed while the stage is pending. */
  ghost predicate Completable(g: Deps, s: PipelineStage) {
    forall y :: Below(g, s.dependsOn, y) ==> y in g && y != s.id && !ReachesCycle(g, y)
  }

  /** Then, as far as the stage itself goes, it is runnable; but the first stage with its id
      needs something that need not be completed. */
  ghost predicate Exposed(p: seq<PipelineStage>, s: PipelineStage) {
    var g := DepsOf(p);
    s.id in g && Completable(g, s) && exists d :: d in g[s.id] && !Below(g, s.dependsOn, d)
  }

  lemma {:induction false} BelowSelf(g: Deps, from: seq<Id>, y: Id)
    requires y in from
    ensures Below(g, from, y)
  {
    var path := [y];
    assert IsPath(g, path) && path[0] in from && path[|path| - 1] == y;
  }

  lemma {:induction false} BelowDependency(g: Deps, from: seq<Id>, y: Id, d: Id)
    requires Below(g, from, y) && DependsOn(g, y, d)
    ensures Below(g, from, d)
  {
    var path :| IsPath(g, path) && path[0] in from && path[|path| - 1] == y;
    var longer := path + [d];
    forall i | 0 <= i < |longer| - 1
      ensures DependsOn(g, longer[i], longer[i + 1])
    {
      if i < |path| - 1 {
        assert DependsOn(g, path[i], path[i + 1]);
      }
    }
    assert IsPath(g, longer) && longer[0] in from && longer[|longer| - 1] == d;
  }

  // ---------- what is listed and refused is exposed ----------

  predicate IsCompleted(stages: StageRuns, x: Id) { x in stages && stages[x].state == Completed }

  lemma {:induction false} CompletedAlongPath(p: seq<PipelineStage>, r: Run, path: seq<Id>)
    requires RunInvariant(p, r) && IsPath(DepsOf(p), path) && IsCompleted(r.stages, path[0])
    ensures IsCompleted(r.stages, path[|path| - 1])
  {
    if 1 < |path| {
      RestOfPath(DepsOf(p), path);
      assert Started(r.stages[path[0]]) && DepsCompleted(p, r.stages, path[0]);
      CompletedAlongPath(p, r, path[1..]);
    }
  }

  /** Once the dependencies of a stage are completed, so is all that is below them. */
  lemma {:induction false} BelowIsCompleted(p: seq<PipelineStage>, r: Run, from: seq<Id>, y: Id)
    requires RunInvariant(p, r) && Below(DepsOf(p), from, y) && forall d :: d in from ==> IsCompleted(r.stages, d)
    ensures IsCompleted(r.stages, y)
  {
    var path :| IsPath(DepsOf(p), path) && path[0] in from && path[|path| - 1] == y;
    CompletedAlongPath(p, r, path);
  }

  /** What a run has completed reaches no cycle. */
  lemma {:induction false} CompletedAvoidsCycles(p: seq<PipelineStage>, es: seq<Event>, y: Id)
    requires IsCompleted(After(p, es).stages, y)
    ensures !ReachesCycle(DepsOf(p), y)
  {
    LogsAreExact(p, es);
    assert y in CompletedSet(After(p, es).stages);
    assert y in CompletionLog(p, es);
    OrderedAvoidsCycles(DepsOf(p), CompletionLog(p, es), y);
  }

  lemma {:induction false} RefusedIsExposed(p: seq<PipelineStage>, es: seq<Event>, session: string, i: nat)
    requires i < |p| && IsRunnable(p[i], After(p, es).stages)
    requires StartStageRule(p, After(p, es), p[i].id, session).1.Err?
    ensures Exposed(p, p[i])
  {
    var s, r, g := p[i], After(p, es), DepsOf(p);
    ReachableInvariant(p, es);
    assert s in p && s.id in Ids(p);
    DepsChecked(r.stages, s.id, g[s.id]);
    var d :| d in g[s.id] && !IsCompleted(r.stages, d);
    forall y | Below(g, s.dependsOn, y)
      ensures y in g && y != s.id && !ReachesCycle(g, y) && y != d
    {
      BelowIsCompleted(p, r, s.dependsOn, y);
      CompletedAvoidsCycles(p, es, y);
    }
  }

  // ---------- an exposed stage is listed and refused in some run ----------

  /** A running run in which just the given stages are completed and all others pending. */
  ghost predicate JustCompleted(p: seq<PipelineStage>, r: Run, done: set<Id>) {
    && r.state == RunRunning && r.stages.Keys == Ids(p)
    && forall x :: x in r.stages ==> r.stages[x].state == if x in done then Completed else Pending
  }

  lemma {:induction false} StartAndComplete(p: seq<PipelineStage>, r: Run, done: set<Id>, y: Id, other: Id)
    requires JustCompleted(p, r, done) && y in DepsOf(p) && y !in done
    requires forall d :: d in DepsOf(p)[y] ==> d in done && d in r.stages
    requires other in r.stages && other !in done && other != y
    ensures JustCompleted(p, CompleteStageRule(StartStageRule(p, r, y, "").0, y, "").0, done + {y})
  {
    DepsChecked(r.stages, y, DepsOf(p)[y]);
    var started := StartStageRule(p, r, y, "").0;
    assert started == r.(stages := r.stages[y := r.stages[y].(state := Running, sessionId := Some(""))]);
    assert started.stages[y].state == Running && started.stages[other].state == Pending;
    var stages := started.stages[y := started.stages[y].(state := Completed, output := Some(""))];
    assert !AllCompleted(stages) by {
      assert other in stages && stages[other].state == Pending;
    }
  }

  lemma {:induction false} OneMoreCompleted(
      p: seq<PipelineStage>, es: seq<Event>, done: set<Id>, y: Id, other: Id) returns (more: seq<Event>)
    requires JustCompleted(p, After(p, es), done) && y in DepsOf(p) && y !in done
    requires forall d :: d in DepsOf(p)[y] ==> d in done && d in After(p, es).stages
    requires other in After(p, es).stages && other !in done && other != y
    ensures JustCompleted(p, After(p, more), done + {y})
  {
    var start, completion := StartOf(y, ""), CompletionOf(y, "");
    more := es + [start] + [completion];
    AfterPush(p, es, start);
    AfterPush(p, es + [start], completion);
    StartAndComplete(p, After(p, es), done, y, other);
  }

  /** In a set that reaches no cycle and holds its own dependencies, something that is not
      done needs only what is done. */
  lemma {:induction false} NextToComplete(g: Deps, all: set<Id>, done: set<Id>) returns (y: Id)
    requires done < all && forall x :: x in all ==> x in g && !ReachesCycle(g, x)
    requires forall x, d :: x in all && DependsOn(g, x, d) ==> d in all
    ensures y in all - done && forall d :: d in g[y] ==> d in done
  {
    var left := all - done;
    var x :| x in all && x !in done;
    if Stuck(g, left) {
      StuckReachesCycle(g, left, x);
    }
    y :| y in left && !DependsInto(g, y, left);
    forall d | d in g[y]
      ensures d in done
    {
      assert DependsOn(g, y, d);
    }
  }

  /** Completing such a set, one stage after the other. */
  lemma {:induction false} CompleteAll(
      p: seq<PipelineStage>, es: seq<Event>, all: set<Id>, done: set<Id>, other: Id) returns (more: seq<Event>)
    requires JustCompleted(p, After(p, es), done) && done <= all
    requires forall x :: x in all ==> x in DepsOf(p) && !ReachesCycle(DepsOf(p), x)
    requires forall x, d :: x in all && DependsOn(DepsOf(p), x, d) ==> d in all
    requires other in Ids(p) && other !in all
    ensures JustCompleted(p, After(p, more), all)
    decreases all - done
  {
    if done == all {
      more := es;
    } else {
      var y := NextToComplete(DepsOf(p), all, done);
      more := OneMoreCompleted(p, es, done, y, other);
      more := CompleteAll(p, more, all, done + {y}, other);
    }
  }

  lemma {:induction false} JustStarted(p: seq<PipelineStage>)
    ensures JustCompleted(p, After(p, [StartRun]), {})
  {
    assert [StartRun] == [] + [StartRun];
    AfterPush(p, [], StartRun);
  }

  lemma {:induction false} ListedAndRefused(p: seq<PipelineStage>, i: nat, r: Run, all: set<Id>, session: string)
    requires i < |p| && Exposed(p, p[i]) && JustCompleted(p, r, all)
    requires forall y :: y in all <==> y in DepsOf(p) && Below(DepsOf(p), p[i].dependsOn, y)
    ensures !ListedStart(p, r, session)
  {
    var s, g := p[i], DepsOf(p);
    var d :| d in g[s.id] && !Below(g, s.dependsOn, d);
    forall y | y in s.dependsOn
      ensures IsCompleted(r.stages, y)
    {
      BelowSelf(g, s.dependsOn, y);
    }
    assert s.id !in all && IsRunnable(s, r.stages);
    RunnableMembers(p, r.stages, s.id);
    DepsChecked(r.stages, s.id, g[s.id]);
    assert s.id in Runnable(p, r) && !IsCompleted(r.stages, d);
  }

  lemma {:induction false} ExposedIsRefused(p: seq<PipelineStage>, i: nat, session: string) returns (es: seq<Event>)
    requires i < |p| && Exposed(p, p[i])
    ensures !ListedStart(p, After(p, es), session)
  {
    var s, g := p[i], DepsOf(p);
    ghost var all := set y | y in g && Below(g, s.dependsOn, y);
    forall x, d | x in all && DependsOn(g, x, d)
      ensures d in all
    {
      BelowDependency(g, s.dependsOn, x, d);
    }
    JustStarted(p);
    es := CompleteAll(p, [StartRun], all, {}, s.id);
    ListedAndRefused(p, i, After(p, es), all, session);
  }

  lemma {:induction false} NoneExposed(p: seq<PipelineStage>, es: seq<Event>, session: string)
    requires forall i :: 0 <= i < |p| ==> !Exposed(p, p[i])
    ensures ListedStart(p, After(p, es), session)
  {
    var r := After(p, es);
    if r.state == RunRunning {
      forall x | x in Runnable(p, r)
        ensures StartStageRule(p, r, x, session).1.Ok?
      {
        RunnableMembers(p, r.stages, x);
        var i :| 0 <= i < |p| && p[i].id == x && IsRunnable(p[i], r.stages);
        if StartStageRule(p, r, x, session).1.Err? {
          RefusedIsExposed(p, es, session, i);
        }
      }
    }
  }

  /** In every reachable run whatever `runnable_stages` lists can be started, if and only if
      no stage of the pipeline is exposed. */
  lemma {:induction false} ListedStartExactly(p: seq<PipelineStage>, session: string)
    ensures (forall es :: ListedStart(p, After(p, es), session)) <==> forall i :: 0 <= i < |p| ==> !Exposed(p, p[i])
  {
    if forall i :: 0 <= i < |p| ==> !Exposed(p, p[i]) {
      forall es
        ensures ListedStart(p, After(p, es), session)
      {
        NoneExposed(p, es, session);
      }
    } else {
      var i :| 0 <= i < |p| && Exposed(p, p[i]);
      var es := ExposedIsRefused(p, i, session);
    }
  }

  /** With unique ids none is. */
  lemma {:induction false} UniqueIdsNotExposed(p: seq<PipelineStage>, i: nat)
    requires UniqueIds(p) && i < |p|
    ensures !Exposed(p, p[i])
  {
    StageDeps(p, i);
    forall d | d in p[i].dependsOn
      ensures Below(DepsOf(p), p[i].dependsOn, d)
    {
      BelowSelf(DepsOf(p), p[i].dependsOn, d);
    }
  }

  // ---------- a run in which it happens ----------

  /** `x` twice, first with a dependency and then without. */
  function RepeatedId(): seq<PipelineStage> {
    [PipelineStage("x", ["y"]), PipelineStage("x", []), PipelineStage("y", [])]
  }

  lemma {:induction false} FirstWins(p: seq<PipelineStage>)
    requires p == RepeatedId()
    ensures "x" in DepsOf(p) && DepsOf(p)["x"] == ["y"]
  {
    assert p[..2][..1] == [p[0]] && p[..2][1] == p[1];
    assert DepsOf([p[0]]) == map["x" := ["y"]] by {
      assert [p[0]][..0] == [];
    }
    assert DepsOf(p[..2]) == map["x" := ["y"]];
  }

  /** As soon as the run is started, `x` is listed, and refused. */
  lemma {:induction false} ListedButRefused(p: seq<PipelineStage>, session: string)
    requires p == RepeatedId()
    ensures var r := After(p, [StartRun]);
      "x" in Runnable(p, r) && StartStageRule(p, r, "x", session).1 == Err(DependenciesNotMet("x"))
  {
    var r := After(p, [StartRun]);
    JustStarted(p);
    assert p[0] in p && p[1] in p && p[2] in p;
    assert IsRunnable(p[1], r.stages);
    RunnableMembers(p, r.stages, "x");
    FirstWins(p);
  }
}
