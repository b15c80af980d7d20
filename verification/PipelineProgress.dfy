/** Progress of pipeline runs: a validated pipeline never gets stuck, and an undisturbed
    run completes its stages in a topological order.
    Models crates/cuartel-core/src/pipeline.rs, lines 311 to 447. */
module PipelineProgress {
  import opened Wrappers
  import opened Graph
  import opened Pipeline
  import opened TopologicalSort
  import opened PipelineRuns

  // ---------- runnable stages ----------

  lemma {:induction false} RunnableMembers(p: seq<PipelineStage>, stages: StageRuns, x: Id)
    ensures x in RunnableAmong(p, stages) <==> exists i :: 0 <= i < |p| && p[i].id == x && IsRunnable(p[i], stages)
  {
    if p != [] {
      RunnableMembers(p[1..], stages, x);
      if x in RunnableAmong(p[1..], stages) {
        var i :| 0 <= i < |p[1..]| && p[1..][i].id == x && IsRunnable(p[1..][i], stages);
        assert p[i + 1].id == x && IsRunnable(p[i + 1], stages);
      }
      if i :| 0 < i < |p| && p[i].id == x && IsRunnable(p[i], stages) {
        assert p[1..][i - 1] == p[i];
      }
    }
  }

  /** `runnable_stages` lists exactly the stages that `start_stage` accepts. */
  lemma {:induction false} RunnableIsStartable(p: seq<PipelineStage>, r: Run, x: Id, session: string)
    requires UniqueIds(p) && r.state == RunRunning
    ensures x in Runnable(p, r) <==> StartStageRule(p, r, x, session).1.Ok?
  {
    RunnableMembers(p, r.stages, x);
    if x in DepsOf(p) {
      var s :| s in p && s.id == x;
      var i :| 0 <= i < |p| && p[i] == s;
      StageDeps(p, i);
      DepsChecked(r.stages, x, DepsOf(p)[x]);
      assert IsRunnable(p[i], r.stages) <==> StartStageRule(p, r, x, session).1.Ok?;
      assert forall k :: 0 <= k < |p| && p[k].id == x ==> k == i;
    }
  }

  lemma {:induction false} FirstStage(p: seq<PipelineStage>, x: Id)
    requires x in DepsOf(p)
    ensures exists i :: 0 <= i < |p| && p[i].id == x && p[i].dependsOn == DepsOf(p)[x]
  {
    var last := |p| - 1;
    if x in DepsOf(p[..last]) {
      FirstStage(p[..last], x);
      var i :| 0 <= i < last && p[..last][i].id == x && p[..last][i].dependsOn == DepsOf(p[..last])[x];
      assert p[i].id == x && p[i].dependsOn == DepsOf(p)[x];
    } else {
      assert p[last].id == x && p[last].dependsOn == DepsOf(p)[x];
    }
  }

  /** With repeated ids too, what `start_stage` accepts is listed. */
  lemma {:induction false} StartableIsRunnable(p: seq<PipelineStage>, r: Run, x: Id, session: string)
    requires r.state == RunRunning && StartStageRule(p, r, x, session).1.Ok?
    ensures x in Runnable(p, r)
  {
    FirstStage(p, x);
    var i :| 0 <= i < |p| && p[i].id == x && p[i].dependsOn == DepsOf(p)[x];
    DepsChecked(r.stages, x, DepsOf(p)[x]);
    RunnableMembers(p, r.stages, x);
    assert IsRunnable(p[i], r.stages);
  }

  /** A running run of the pipeline in which what is listed does start. */
  ghost predicate ListedStart(p: seq<PipelineStage>, r: Run, session: string) {
    r.state == RunRunning && r.stages.Keys == Ids(p) ==>
      forall x :: x in Runnable(p, r) ==> StartStageRule(p, r, x, session).1.Ok?
  }

  /** A stage whose dependencies could all be completed before it. */
  predicate CanBecomeRunnable(p: seq<PipelineStage>, s: PipelineStage) {
    s.id !in s.dependsOn && forall d :: d in s.dependsOn ==> d in Ids(p)
  }

  predicate NeedsFirst(p: seq<PipelineStage>, s: PipelineStage) {
    s.id in DepsOf(p) && forall d :: d in DepsOf(p)[s.id] ==> d in s.dependsOn
  }

  /** Where ids are repeated, the first stage with an id counts for `start_stage` and any of
      them for `runnable_stages`: the first must need no more than the others. */
  predicate FirstNeedsNoMore(p: seq<PipelineStage>) {
    forall i :: 0 <= i < |p| && CanBecomeRunnable(p, p[i]) ==> NeedsFirst(p, p[i])
  }

  /** A run record in which just the dependencies of a stage are completed. */
  function OnlyDepsCompleted(p: seq<PipelineStage>, s: PipelineStage): Run {
    Run(RunRunning, map x | x in Ids(p) :: StageRun(if x in s.dependsOn then Completed else Pending, None, None, None))
  }

  lemma {:induction false} ListedDoesNotStart(p: seq<PipelineStage>, i: nat, session: string)
    requires i < |p| && CanBecomeRunnable(p, p[i]) && !NeedsFirst(p, p[i])
    ensures !ListedStart(p, OnlyDepsCompleted(p, p[i]), session)
  {
    var s, r := p[i], OnlyDepsCompleted(p, p[i]);
    assert s in p && s.id in Ids(p);
    assert IsRunnable(s, r.stages);
    RunnableMembers(p, r.stages, s.id);
    DepsChecked(r.stages, s.id, DepsOf(p)[s.id]);
    assert s.id in Runnable(p, r);
  }

  lemma {:induction false} ListedDoesStart(p: seq<PipelineStage>, r: Run, session: string, x: Id)
    requires FirstNeedsNoMore(p) && r.state == RunRunning && r.stages.Keys == Ids(p) && x in Runnable(p, r)
    ensures StartStageRule(p, r, x, session).1.Ok?
  {
    RunnableMembers(p, r.stages, x);
    var i :| 0 <= i < |p| && p[i].id == x && IsRunnable(p[i], r.stages);
    assert CanBecomeRunnable(p, p[i]);
    DepsChecked(r.stages, x, DepsOf(p)[x]);
  }

  /** In any running run record, whether calls lead to it or not, what `runnable_stages`
      lists can be started, if and only if the first stage with an id needs no more than
      the others that can become runnable.  For the runs that calls lead to see
      `PipelineListing.ListedStartExactly`. */
  lemma {:induction false} RunnableIsStartableExactly(p: seq<PipelineStage>, session: string)
    ensures (forall r :: ListedStart(p, r, session)) <==> FirstNeedsNoMore(p)
  {
    if FirstNeedsNoMore(p) {
      forall r
        ensures ListedStart(p, r, session)
      {
        if r.state == RunRunning && r.stages.Keys == Ids(p) {
          forall x | x in Runnable(p, r)
            ensures StartStageRule(p, r, x, session).1.Ok?
          {
            ListedDoesStart(p, r, session, x);
          }
        }
      }
    } else {
      var i :| 0 <= i < |p| && CanBecomeRunnable(p, p[i]) && !NeedsFirst(p, p[i]);
      ListedDoesNotStart(p, i, session);
    }
  }

  function PendingSet(stages: StageRuns): set<Id> { set x | x in stages && stages[x].state == Pending }

  /** In a validated pipeline some pending stage has no pending dependency. */
  lemma {:induction false} SomePendingIsFree(p: seq<PipelineStage>, stages: StageRuns) returns (x: Id)
    requires ValidPipeline(p) && stages.Keys == Ids(p) && PendingSet(stages) != {}
    ensures x in PendingSet(stages) && forall d :: d in DepsOf(p)[x] ==> d in stages && stages[d].state != Pending
  {
    var g, pending := DepsOf(p), PendingSet(stages);
    KnownDepsClosed(p);
    if forall y :: y in pending ==> DependsInto(g, y, pending) {
      var y :| y in pending;
      StuckReachesCycle(g, pending, y);
      AcyclicMeansNoneReaches(g);
      assert false;
    }
    x :| x in pending && !DependsInto(g, x, pending);
    forall d | d in g[x]
      ensures d in stages && stages[d].state != Pending
    {
      assert DependsOn(g, x, d);
      assert d !in pending;
    }
  }

  lemma {:induction false} SomeStageCanStart(p: seq<PipelineStage>, r: Run, session: string) returns (x: Id)
    requires ValidPipeline(p) && r.stages.Keys == Ids(p) && PendingSet(r.stages) != {}
    requires forall y :: y in r.stages ==> r.stages[y].state in {Pending, Completed}
    ensures StartStageRule(p, r, x, session).1.Ok?
  {
    x := SomePendingIsFree(p, r.stages);
    DepsChecked(r.stages, x, DepsOf(p)[x]);
  }

  /** Progress: a reachable running run of a validated pipeline in which no stage is
      running has a runnable stage, and every runnable stage starts. */
  lemma {:induction false} Progress(p: seq<PipelineStage>, es: seq<Event>, session: string)
    requires ValidPipeline(p) && After(p, es).state == RunRunning
    requires forall x :: x in After(p, es).stages ==> After(p, es).stages[x].state != Running
    ensures Runnable(p, After(p, es)) != []
    ensures forall x :: x in Runnable(p, After(p, es)) ==> StartStageRule(p, After(p, es), x, session).1.Ok?
  {
    var r := After(p, es);
    ReachableInvariant(p, es);
    assert p[0].id in Ids(p);
    var y :| y in r.stages && r.stages[y].state != Completed;
    assert y in PendingSet(r.stages);
    var x := SomeStageCanStart(p, r, session);
    RunnableIsStartable(p, r, x, session);
    forall z | z in Runnable(p, r)
      ensures StartStageRule(p, r, z, session).1.Ok?
    {
      RunnableIsStartable(p, r, z, session);
    }
  }

  // ---------- the order of starts and completions ----------

  /** The stages whose start succeeded, in order. */
  function StartLog(p: seq<PipelineStage>, es: seq<Event>): seq<Id> {
    if es == [] then []
    else
      var init, e := es[..|es| - 1], es[|es| - 1];
      StartLog(p, init) + (if e.StartOf? && Apply(p, After(p, init), e).1.Ok? then [e.id] else [])
  }

  /** The stages whose completion succeeded, in order. */
  function CompletionLog(p: seq<PipelineStage>, es: seq<Event>): seq<Id> {
    if es == [] then []
    else
      var init, e := es[..|es| - 1], es[|es| - 1];
      CompletionLog(p, init) + (if e.CompletionOf? && Apply(p, After(p, init), e).1.Ok? then [e.id] else [])
  }

  /** A successful start adds one stage to the started ones. */
  lemma {:induction false} StartSets(p: seq<PipelineStage>, r: Run, id: Id, session: string)
    requires StartStageRule(p, r, id, session).1.Ok?
    ensures var stages := StartStageRule(p, r, id, session).0.stages;
      && id !in StartedSet(r.stages) && StartedSet(stages) == StartedSet(r.stages) + {id}
      && CompletedSet(stages) == CompletedSet(r.stages)
  {
  }

  /** A successful completion adds one stage. */
  lemma {:induction false} CompletionSets(r: Run, id: Id, output: string)
    requires CompleteStageRule(r, id, output).1.Ok?
    ensures var stages := CompleteStageRule(r, id, output).0.stages;
      && id !in CompletedSet(r.stages) && CompletedSet(stages) == CompletedSet(r.stages) + {id}
      && StartedSet(stages) == StartedSet(r.stages)
  {
    var stages := CompleteStageRule(r, id, output).0.stages;
    assert stages.Keys == r.stages.Keys;
    assert forall x :: x in stages && x != id ==> stages[x] == r.stages[x];
  }

  /** Its dependencies are there already. */
  lemma {:induction false} CompletionDeps(p: seq<PipelineStage>, r: Run, id: Id, output: string)
    requires RunInvariant(p, r) && CompleteStageRule(r, id, output).1.Ok?
    ensures id in DepsOf(p) && forall d :: d in DepsOf(p)[id] ==> d in CompletedSet(r.stages)
  {
    assert Started(r.stages[id]) && DepsCompleted(p, r.stages, id);
  }

  /** Any other call leaves both sets. */
  lemma {:induction false} OtherSets(p: seq<PipelineStage>, r: Run, e: Event)
    requires !(e.StartOf? && Apply(p, r, e).1.Ok?) && !(e.CompletionOf? && Apply(p, r, e).1.Ok?)
    ensures StartedSet(Apply(p, r, e).0.stages) == StartedSet(r.stages)
    ensures CompletedSet(Apply(p, r, e).0.stages) == CompletedSet(r.stages)
  {
    var stages := Apply(p, r, e).0.stages;
    assert stages.Keys == r.stages.Keys;
    forall x | x in stages
      ensures Started(stages[x]) == Started(r.stages[x])
      ensures (stages[x].state == Completed) == (r.stages[x].state == Completed)
    {
    }
  }

  lemma {:induction false} PushDistinct(s: seq<Id>, x: Id)
    requires Distinct(s) && x !in Elements(s)
    ensures Distinct(s + [x]) && Elements(s + [x]) == Elements(s) + {x}
  {
  }

  lemma {:induction false} PushDependenciesFirst(g: Deps, s: seq<Id>, x: Id)
    requires DependenciesFirst(g, s) && forall d :: DependsOn(g, x, d) ==> d in s
    ensures DependenciesFirst(g, s + [x])
  {
    forall i, d | 0 <= i < |s + [x]| && DependsOn(g, (s + [x])[i], d)
      ensures d in (s + [x])[..i]
    {
      assert (s + [x])[..i] == s[..i];
      assert s[..|s|] == s;
    }
  }

  ghost predicate LogsFit(g: Deps, starts: seq<Id>, completions: seq<Id>, stages: StageRuns) {
    && Distinct(starts) && Elements(starts) == StartedSet(stages)
    && Distinct(completions) && Elements(completions) == CompletedSet(stages)
    && DependenciesFirst(g, completions)
  }

  lemma {:induction false} LogStep(p: seq<PipelineStage>, r: Run, e: Event, starts: seq<Id>, completions: seq<Id>)
    requires RunInvariant(p, r) && LogsFit(DepsOf(p), starts, completions, r.stages)
    ensures var (r', out) := Apply(p, r, e);
      LogsFit(DepsOf(p),
        starts + (if e.StartOf? && out.Ok? then [e.id] else []),
        completions + (if e.CompletionOf? && out.Ok? then [e.id] else []),
        r'.stages)
  {
    var out := Apply(p, r, e).1;
    assert starts + [] == starts && completions + [] == completions;
    if e.StartOf? && out.Ok? {
      StartSets(p, r, e.id, e.session);
      PushDistinct(starts, e.id);
    } else if e.CompletionOf? && out.Ok? {
      CompletionSets(r, e.id, e.output);
      CompletionDeps(p, r, e.id, e.output);
      PushDistinct(completions, e.id);
      assert forall d :: d in DepsOf(p)[e.id] ==> d in Elements(completions);
      PushDependenciesFirst(DepsOf(p), completions, e.id);
    } else {
      OtherSets(p, r, e);
    }
  }

  /** In every run each stage starts and completes at most once, the logs say which have,
      and no stage completes before its dependencies. */
  lemma {:induction false} LogsAreExact(p: seq<PipelineStage>, es: seq<Event>)
    ensures LogsFit(DepsOf(p), StartLog(p, es), CompletionLog(p, es), After(p, es).stages)
  {
    if es != [] {
      var init, e := es[..|es| - 1], es[|es| - 1];
      LogsAreExact(p, init);
      ReachableInvariant(p, init);
      LogStep(p, After(p, init), e, StartLog(p, init), CompletionLog(p, init));
    }
  }

  /** No stage failure and no cancel among the calls. */
  predicate Undisturbed(es: seq<Event>) {
    forall e :: e in es ==> !e.FailureOf? && !e.CancelRun?
  }

  lemma {:induction false} UndisturbedLosesNothing(p: seq<PipelineStage>, es: seq<Event>)
    requires Undisturbed(es)
    ensures NothingLost(After(p, es).stages) && After(p, es).state !in {RunFailed, RunCancelled}
  {
    if es != [] {
      UndisturbedLosesNothing(p, es[..|es| - 1]);
      assert es[|es| - 1] in es;
    }
  }

  /** No further start or completion would succeed. */
  ghost predicate Quiescent(p: seq<PipelineStage>, r: Run) {
    forall x, s :: StartStageRule(p, r, x, s).1.Err? && CompleteStageRule(r, x, s).1.Err?
  }

  /** A maximal undisturbed run of a validated pipeline starts and completes every stage
      once, ends completed, and its completion order is a topological order. */
  lemma {:induction false} MaximalRunCompletes(p: seq<PipelineStage>, es: seq<Event>)
    requires ValidPipeline(p) && Undisturbed(es) && Quiescent(p, After(p, es))
    ensures After(p, es).state == RunCompleted
    ensures |StartLog(p, es)| == |p| && |CompletionLog(p, es)| == |p|
    ensures IsTopologicalOrder(p, CompletionLog(p, es))
  {
    var r := After(p, es);
    ReachableInvariant(p, es);
    UndisturbedLosesNothing(p, es);
    forall x | x in r.stages
      ensures r.stages[x].state in {Pending, Completed}
    {
      assert CompleteStageRule(r, x, "").1.Err?;
    }
    if PendingSet(r.stages) != {} {
      var x := SomeStageCanStart(p, r, "");
      assert false;
    }
    forall x | x in r.stages
      ensures r.stages[x].state == Completed
    {
      assert x !in PendingSet(r.stages);
    }
    assert AllCompleted(r.stages);
    assert p[0].id in Ids(p);
    LogsAreExact(p, es);
    assert StartedSet(r.stages) == Ids(p) && CompletedSet(r.stages) == Ids(p);
    IdsSize(p);
    DistinctSize(StartLog(p, es));
    DistinctSize(CompletionLog(p, es));
  }
}
