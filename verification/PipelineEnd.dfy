/** When a run that has ended changes its state once more.
    Over crates/cuartel-core/src/pipeline.rs, lines 298 to 413. */
module PipelineEnd {
  import opened Wrappers
  import opened Graph
  import opened Pipeline
  import opened PipelineRuns

  predicate HasEnded(r: Run) { r.state in {RunCompleted, RunFailed, RunCancelled} }

  /** The call completes the only stage that is not completed yet. */
  predicate CompletesLast(r: Run, e: Event) {
    && e.CompletionOf? && e.id in r.stages && r.stages[e.id].state == Running
    && forall x :: x in r.stages && x != e.id ==> r.stages[x].state == Completed
  }

  predicate FailsRunning(r: Run, e: Event) {
    e.FailureOf? && e.id in r.stages && r.stages[e.id].state == Running
  }

  lemma {:induction false} CompletionEnds(r: Run, id: Id, output: string)
    requires r.state != RunCompleted
    ensures CompleteStageRule(r, id, output).0.state ==
              if CompletesLast(r, CompletionOf(id, output)) then RunCompleted else r.state
  {
    if id in r.stages && r.stages[id].state == Running {
      var after := r.stages[id := r.stages[id].(state := Completed, output := Some(output))];
      assert after[id].state == Completed;
      assert forall x :: x in r.stages && x != id ==> after[x] == r.stages[x];
      assert AllCompleted(after) <==> CompletesLast(r, CompletionOf(id, output));
    }
  }

  lemma {:induction false} FailedStaysFailed(r: Run, id: Id, output: string)
    requires SomeFailed(r.stages)
    ensures !CompletesLast(r, CompletionOf(id, output))
  {
    var x :| x in r.stages && r.stages[x].state == Failed;
  }

  lemma {:induction false} EndedRunChanges(p: seq<PipelineStage>, r: Run, e: Event)
    requires RunInvariant(p, r) && HasEnded(r)
    ensures Apply(p, r, e).0.state != r.state <==>
      || (e.CancelRun? && r.state != RunCancelled)
      || (r.state == RunCancelled && (CompletesLast(r, e) || FailsRunning(r, e)))
  {
    match e
    case StartRun =>
    case StartOf(id, session) =>
    case CompletionOf(id, output) =>
      if r.state != RunCompleted {
        CompletionEnds(r, id, output);
      }
      if r.state == RunFailed {
        FailedStaysFailed(r, id, output);
      }
    case FailureOf(id, error) =>
    case CancelRun =>
  }

  /** In every reachable run that has ended a call changes the run state in exactly three
      cases: a cancel of a run not cancelled yet, and in a cancelled run the completion of
      the only stage that is not completed, or the failure of a running stage. */
  lemma {:induction false} EndedRunChangesExactly(p: seq<PipelineStage>, es: seq<Event>, e: Event)
    requires HasEnded(After(p, es))
    ensures var r := After(p, es);
      Apply(p, r, e).0.state != r.state <==>
      || (e.CancelRun? && r.state != RunCancelled)
      || (r.state == RunCancelled && (CompletesLast(r, e) || FailsRunning(r, e)))
  {
    ReachableInvariant(p, es);
    EndedRunChanges(p, After(p, es), e);
  }

  /** All three happen: a running stage that completes after a cancel makes the run
      completed, one that fails makes it failed, and a cancel makes a completed run
      cancelled.  The stage starts although the run has not. */
  lemma {:induction false} RunStateIsNotFinal(x: Id, session: string, output: string, error: string)
    ensures var p := [PipelineStage(x, [])];
      var started := Apply(p, NewRun(p), StartOf(x, session)).0;
      var cancelled := Apply(p, started, CancelRun).0;
      var completed := Apply(p, cancelled, CompletionOf(x, output)).0;
      && started.state == RunPending && started.stages[x].state == Running
      && cancelled.state == RunCancelled && completed.state == RunCompleted
      && Apply(p, cancelled, FailureOf(x, error)).0.state == RunFailed
      && Apply(p, completed, CancelRun).0.state == RunCancelled
  {
  }

  // ---------- whether a cancelled run can still complete ----------

  function RunningSet(stages: StageRuns): set<Id> { set x | x in stages && stages[x].state == Running }

  /** Only completed and running stages, and one that is running. */
  predicate Recoverable(stages: StageRuns) {
    && (forall x :: x in stages ==> stages[x].state in {Completed, Running})
    && RunningSet(stages) != {}
  }

  /** Completing the running stages one after the other completes the run. */
  lemma {:induction false} CompleteRunning(p: seq<PipelineStage>, es: seq<Event>) returns (later: seq<Event>)
    requires Recoverable(After(p, es).stages)
    ensures After(p, es + later).state == RunCompleted
    decreases RunningSet(After(p, es).stages)
  {
    var r := After(p, es);
    var x :| x in RunningSet(r.stages);
    var e := CompletionOf(x, "");
    AfterPush(p, es, e);
    var next := After(p, es + [e]);
    assert RunningSet(next.stages) == RunningSet(r.stages) - {x};
    if RunningSet(next.stages) == {} {
      assert forall y :: y in r.stages && y != x ==> y !in RunningSet(next.stages);
      later := [e];
    } else {
      var rest := CompleteRunning(p, es + [e]);
      later := [e] + rest;
      assert es + later == es + [e] + rest;
    }
  }

  lemma {:induction false} TerminalStays(p: seq<PipelineStage>, es: seq<Event>, later: seq<Event>, x: Id)
    requires x in After(p, es).stages && IsTerminal(After(p, es).stages[x])
    ensures x in After(p, es + later).stages && After(p, es + later).stages[x] == After(p, es).stages[x]
    decreases |later|
  {
    if later == [] {
      assert es + later == es;
    } else {
      var init, e := later[..|later| - 1], later[|later| - 1];
      TerminalStays(p, es, init, x);
      assert es + later == es + init + [e];
      AfterPush(p, es + init, e);
      TerminalStageStays(p, After(p, es + init), e, x);
    }
  }

  lemma {:induction false} IdleStep(p: seq<PipelineStage>, r: Run, e: Event)
    requires r.state == RunCancelled && RunningSet(r.stages) == {} && NothingPending(r.stages)
    ensures Apply(p, r, e).0 == r
  {
    assert forall x :: x in r.stages ==> x !in RunningSet(r.stages);
    if e.CancelRun? {
      assert Skip(r.stages) == r.stages;
    }
  }

  /** A cancelled run in which nothing is running or pending stays as it is. */
  lemma {:induction false} IdleCancelledStays(p: seq<PipelineStage>, es: seq<Event>, later: seq<Event>)
    requires After(p, es).state == RunCancelled && RunningSet(After(p, es).stages) == {}
    requires NothingPending(After(p, es).stages)
    ensures After(p, es + later) == After(p, es)
    decreases |later|
  {
    if later == [] {
      assert es + later == es;
    } else {
      var init, e := later[..|later| - 1], later[|later| - 1];
      IdleCancelledStays(p, es, init);
      assert es + later == es + init + [e];
      AfterPush(p, es + init, e);
      IdleStep(p, After(p, es), e);
    }
  }

  /** A cancelled run can still become completed if and only if all its stages are completed
      or running, and one is running. */
  lemma {:induction false} CancelledCanComplete(p: seq<PipelineStage>, es: seq<Event>)
    requires After(p, es).state == RunCancelled
    ensures (exists later :: After(p, es + later).state == RunCompleted) <==> Recoverable(After(p, es).stages)
  {
    var r := After(p, es);
    ReachableInvariant(p, es);
    if Recoverable(r.stages) {
      var later := CompleteRunning(p, es);
    }
    if exists later :: After(p, es + later).state == RunCompleted {
      var later :| After(p, es + later).state == RunCompleted;
      ReachableInvariant(p, es + later);
      if RunningSet(r.stages) == {} {
        IdleCancelledStays(p, es, later);
      }
      forall x | x in r.stages
        ensures r.stages[x].state in {Completed, Running}
      {
        if IsTerminal(r.stages[x]) {
          TerminalStays(p, es, later, x);
        }
      }
    }
  }
}
