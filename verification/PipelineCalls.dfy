/** What each call on a run changes, stage by stage, and when and why it is refused.
    Over crates/cuartel-core/src/pipeline.rs, lines 298 to 447. */
module PipelineCalls {
  import opened Wrappers
  import opened Graph
  import opened Pipeline
  import opened TopologicalSort
  import opened PipelineRuns

  /** Every stage but `id` is the very same record. */
  ghost predicate OthersStay(r: Run, after: Run, id: Id) {
    && after.stages.Keys == r.stages.Keys
    && forall x :: x in r.stages && x != id ==> after.stages[x] == r.stages[x]
  }

  /** The stage differs in its state only, which is skipped. */
  predicate IsSkipOf(before: StageRun, after: StageRun) {
    && after.state == Skipped && after.sessionId == before.sessionId
    && after.output == before.output && after.error == before.error
  }

  /** But for `id`, what was pending is skipped and everything else stays. */
  ghost predicate PendingSkipped(r: Run, after: Run, id: Option<Id>) {
    && after.stages.Keys == r.stages.Keys
    && forall x :: x in r.stages && Some(x) != id ==>
         if r.stages[x].state == Pending then IsSkipOf(r.stages[x], after.stages[x])
         else after.stages[x] == r.stages[x]
  }

  /** A call on a stage that is unknown, or not in the state it must be in. */
  predicate RefusedAt(r: Run, id: Id, outcome: Outcome, event: string) {
    outcome == Err(if id in r.stages then InvalidTransition(id, r.stages[id].state, event) else StageNotFound(id))
  }

  lemma {:induction false} NewExactly(p: seq<PipelineStage>)
    ensures var r := NewRun(p);
      && r.state == RunPending && (forall x :: x in r.stages <==> exists i :: 0 <= i < |p| && p[i].id == x)
      && forall x :: x in r.stages ==> r.stages[x] == StageRun(Pending, None, None, None)
  {
    forall i | 0 <= i < |p|
      ensures p[i].id in NewRun(p).stages
    {
      assert p[i] in p;
    }
  }

  lemma {:induction false} StartExactly(r: Run)
    ensures var (after, outcome) := StartRule(r);
      && after.stages == r.stages
      && (r.state == RunPending ==> outcome == Ok(Unit) && after.state == RunRunning)
      && (r.state != RunPending ==>
            after == r && outcome == Err(InvalidTransition("__pipeline__", Pending, "start")))
  {
  }

  // ---------- starting a stage ----------

  /** The first stage with an id is the one whose dependencies are looked at. */
  lemma {:induction false} FirstStageCounts(p: seq<PipelineStage>, i: nat)
    requires i < |p| && forall k :: 0 <= k < i ==> p[k].id != p[i].id
    ensures p[i].id in DepsOf(p) && DepsOf(p)[p[i].id] == p[i].dependsOn
    decreases |p|
  {
    var last := |p| - 1;
    if i < last {
      FirstStageCounts(p[..last], i);
    } else {
      assert forall s :: s in p[..last] ==> s.id != p[i].id;
    }
  }

  predicate IsDone(r: Run, x: Id) { x in r.stages && r.stages[x].state == Completed }

  /** The first dependency that is not completed is the one that is reported. */
  lemma {:induction false} FirstNotDone(r: Run, id: Id, deps: seq<Id>, k: nat)
    requires k < |deps| && !IsDone(r, deps[k]) && forall i :: 0 <= i < k ==> IsDone(r, deps[i])
    ensures CheckDeps(r.stages, id, deps)
         == Err(if deps[k] in r.stages then DependenciesNotMet(id) else StageNotFound(deps[k]))
    decreases k
  {
    if 0 < k {
      assert IsDone(r, deps[0]);
      assert forall i :: 0 <= i < k - 1 ==> deps[1..][i] == deps[i + 1];
      FirstNotDone(r, id, deps[1..], k - 1);
    }
  }

  /** A stage starts if the pipeline knows it, all it depends on is completed and it is
      pending; then it alone changes, in its state and session. */
  lemma {:induction false} StartStageExactly(p: seq<PipelineStage>, r: Run, id: Id, session: string)
    ensures var (after, outcome) := StartStageRule(p, r, id, session);
      && (outcome.Ok? <==>
            && id in DepsOf(p) && (forall d :: d in DepsOf(p)[id] ==> IsDone(r, d))
            && id in r.stages && r.stages[id].state == Pending)
      && (outcome.Err? ==> after == r)
      && (outcome.Ok? ==>
            && after.state == r.state && OthersStay(r, after, id)
            && after.stages[id] == StageRun(Running, Some(session), r.stages[id].output, r.stages[id].error))
  {
    if id in DepsOf(p) {
      DepsChecked(r.stages, id, DepsOf(p)[id]);
    }
  }

  /** Why it does not: an unknown stage comes first, then the first dependency that is not
      completed, then the state of the stage. */
  lemma {:induction false} StartStageRefused(p: seq<PipelineStage>, r: Run, id: Id, session: string)
    requires StartStageRule(p, r, id, session).1.Err?
    ensures var outcome := StartStageRule(p, r, id, session).1;
      if id !in DepsOf(p) then outcome == Err(StageNotFound(id))
      else
        var deps := DepsOf(p)[id];
        && (forall k :: 0 <= k < |deps| && !IsDone(r, deps[k]) && (forall i :: 0 <= i < k ==> IsDone(r, deps[i])) ==>
              outcome == Err(if deps[k] in r.stages then DependenciesNotMet(id) else StageNotFound(deps[k])))
        && ((forall d :: d in deps ==> IsDone(r, d)) ==> RefusedAt(r, id, outcome, "start_stage"))
  {
    if id in DepsOf(p) {
      var deps := DepsOf(p)[id];
      DepsChecked(r.stages, id, deps);
      forall k | 0 <= k < |deps| && !IsDone(r, deps[k]) && (forall i :: 0 <= i < k ==> IsDone(r, deps[i]))
        ensures CheckDeps(r.stages, id, deps)
             == Err(if deps[k] in r.stages then DependenciesNotMet(id) else StageNotFound(deps[k]))
      {
        FirstNotDone(r, id, deps, k);
      }
    }
  }

  // ---------- ending a stage, and the run ----------

  /** A running stage completes with its output; the run completes with its last stage. */
  lemma {:induction false} CompleteStageExactly(r: Run, id: Id, output: string)
    ensures var (after, outcome) := CompleteStageRule(r, id, output);
      && (outcome.Ok? <==> id in r.stages && r.stages[id].state == Running)
      && (outcome.Err? ==> after == r && RefusedAt(r, id, outcome, "complete_stage"))
      && (outcome.Ok? ==>
            && OthersStay(r, after, id)
            && after.stages[id] == StageRun(Completed, r.stages[id].sessionId, Some(output), r.stages[id].error)
            && after.state == if forall x :: x in r.stages && x != id ==> r.stages[x].state == Completed
                              then RunCompleted else r.state)
  {
    var (after, outcome) := CompleteStageRule(r, id, output);
    if outcome.Ok? {
      assert forall x :: x in r.stages && x != id ==> after.stages[x] == r.stages[x];
    }
  }

  /** A running stage fails with its error, the run fails, and what was pending is skipped;
      other running stages run on. */
  lemma {:induction false} FailStageExactly(r: Run, id: Id, error: string)
    ensures var (after, outcome) := FailStageRule(r, id, error);
      && (outcome.Ok? <==> id in r.stages && r.stages[id].state == Running)
      && (outcome.Err? ==> after == r && RefusedAt(r, id, outcome, "fail_stage"))
      && (outcome.Ok? ==>
            && after.state == RunFailed && PendingSkipped(r, after, Some(id))
            && after.stages[id] == StageRun(Failed, r.stages[id].sessionId, r.stages[id].output, Some(error)))
  {
  }

  lemma {:induction false} CancelExactly(r: Run)
    ensures CancelRule(r).state == RunCancelled && PendingSkipped(r, CancelRule(r), None)
  {
  }

  // ---------- what is listed ----------

  /** Nothing is listed unless the run is running; then a stage at the end of the pipeline
      that is runnable is listed last. */
  lemma {:induction false} ListedInOrder(p: seq<PipelineStage>, s: PipelineStage, r: Run)
    ensures r.state != RunRunning ==> Runnable(p, r) == []
    ensures r.state == RunRunning ==>
              Runnable(p + [s], r) == Runnable(p, r) + (if IsRunnable(s, r.stages) then [s.id] else [])
  {
    if r.state == RunRunning {
      if p == [] {
        assert [] + [s] == [s] && [s][1..] == [];
      } else {
        ListedInOrder(p[1..], s, r);
        assert (p + [s])[1..] == p[1..] + [s];
      }
    }
  }
}
