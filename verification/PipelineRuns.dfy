/** The run machine: stages are started, completed, failed, skipped.
    Models crates/cuartel-core/src/pipeline.rs, lines 202 to 448. */
module PipelineRuns {
  import opened Wrappers
  import opened Graph
  import opened Pipeline
  import opened TopologicalSort

  datatype RunState = RunPending | RunRunning | RunCompleted | RunFailed | RunCancelled

  datatype StageRun = StageRun(
    state: StageState, sessionId: Option<string>, output: Option<string>, error: Option<string>)

  type StageRuns = map<Id, StageRun>

  /** The fields of a run that its methods read or write, without the timestamps. */
  datatype Run = Run(state: RunState, stages: StageRuns)

  type Outcome = Result<Unit, PipelineError>

  // ---------- what each method does ----------

  function NewRun(p: seq<PipelineStage>): Run {
    Run(RunPending, map x | x in Ids(p) :: StageRun(Pending, None, None, None))
  }

  function StartRule(r: Run): (Run, Outcome) {
    if r.state != RunPending then (r, Err(InvalidTransition("__pipeline__", Pending, "start")))
    else (r.(state := RunRunning), Ok(Unit))
  }

  /** The dependencies are looked at in order; the first problem is reported. */
  function CheckDeps(stages: StageRuns, id: Id, deps: seq<Id>): Outcome {
    if deps == [] then Ok(Unit)
    else if deps[0] !in stages then Err(StageNotFound(deps[0]))
    else if stages[deps[0]].state != Completed then Err(DependenciesNotMet(id))
    else CheckDeps(stages, id, deps[1..])
  }

  function StartStageRule(p: seq<PipelineStage>, r: Run, id: Id, session: string): (Run, Outcome) {
    if id !in DepsOf(p) then (r, Err(StageNotFound(id)))
    else if CheckDeps(r.stages, id, DepsOf(p)[id]).Err? then (r, CheckDeps(r.stages, id, DepsOf(p)[id]))
    else if id !in r.stages then (r, Err(StageNotFound(id)))
    else if r.stages[id].state != Pending then (r, Err(InvalidTransition(id, r.stages[id].state, "start_stage")))
    else (r.(stages := r.stages[id := r.stages[id].(state := Running, sessionId := Some(session))]), Ok(Unit))
  }

  predicate AllCompleted(stages: StageRuns) {
    forall x :: x in stages ==> stages[x].state == Completed
  }

  function CompleteStageRule(r: Run, id: Id, output: string): (Run, Outcome) {
    if id !in r.stages then (r, Err(StageNotFound(id)))
    else if r.stages[id].state != Running then (r, Err(InvalidTransition(id, r.stages[id].state, "complete_stage")))
    else
      var stages := r.stages[id := r.stages[id].(state := Completed, output := Some(output))];
      (Run(if AllCompleted(stages) then RunCompleted else r.state, stages), Ok(Unit))
  }

  /** Every pending stage becomes skipped. */
  function Skip(stages: StageRuns): StageRuns {
    map x | x in stages :: if stages[x].state == Pending then stages[x].(state := Skipped) else stages[x]
  }

  function FailStageRule(r: Run, id: Id, error: string): (Run, Outcome) {
    if id !in r.stages then (r, Err(StageNotFound(id)))
    else if r.stages[id].state != Running then (r, Err(InvalidTransition(id, r.stages[id].state, "fail_stage")))
    else (Run(RunFailed, Skip(r.stages[id := r.stages[id].(state := Failed, error := Some(error))])), Ok(Unit))
  }

  function CancelRule(r: Run): Run { Run(RunCancelled, Skip(r.stages)) }

  predicate IsRunnable(s: PipelineStage, stages: StageRuns) {
    && s.id in stages && stages[s.id].state == Pending
    && forall d :: d in s.dependsOn ==> d in stages && stages[d].state == Completed
  }

  function RunnableAmong(p: seq<PipelineStage>, stages: StageRuns): seq<Id> {
    if p == [] then []
    else (if IsRunnable(p[0], stages) then [p[0].id] else []) + RunnableAmong(p[1..], stages)
  }

  /** The stages `runnable_stages` lists, in pipeline order. */
  function Runnable(p: seq<PipelineStage>, r: Run): seq<Id> {
    if r.state != RunRunning then [] else RunnableAmong(p, r.stages)
  }

  // ---------- the object ----------

  class PipelineRun {
    var state: RunState
    var stages: StageRuns

    function Contents(): Run
      reads this
    {
      Run(state, stages)
    }

    constructor (p: seq<PipelineStage>)
      ensures Contents() == NewRun(p)
    {
      state := RunPending;
      stages := NewRun(p).stages;
    }

    method Start() returns (r: Outcome)
      modifies this
      ensures (Contents(), r) == StartRule(old(Contents()))
    {
      if state != RunPending {
        return Err(InvalidTransition("__pipeline__", Pending, "start"));
      }
      state := RunRunning;
      return Ok(Unit);
    }

    method StartStage(id: Id, session: string, p: seq<PipelineStage>) returns (r: Outcome)
      modifies this
      ensures (Contents(), r) == StartStageRule(p, old(Contents()), id, session)
    {
      if id !in DepsOf(p) {
        return Err(StageNotFound(id));
      }
      var deps := DepsOf(p)[id];
      for k := 0 to |deps|
        invariant CheckDeps(stages, id, deps) == CheckDeps(stages, id, deps[k..])
      {
        if deps[k] !in stages {
          return Err(StageNotFound(deps[k]));
        }
        if stages[deps[k]].state != Completed {
          return Err(DependenciesNotMet(id));
        }
      }
      if id !in stages {
        return Err(StageNotFound(id));
      }
      if stages[id].state != Pending {
        return Err(InvalidTransition(id, stages[id].state, "start_stage"));
      }
      stages := stages[id := stages[id].(state := Running, sessionId := Some(session))];
      return Ok(Unit);
    }

    method CompleteStage(id: Id, output: string) returns (r: Outcome)
      modifies this
      ensures (Contents(), r) == CompleteStageRule(old(Contents()), id, output)
    {
      if id !in stages {
        return Err(StageNotFound(id));
      }
      if stages[id].state != Running {
        return Err(InvalidTransition(id, stages[id].state, "complete_stage"));
      }
      stages := stages[id := stages[id].(state := Completed, output := Some(output))];
      if AllCompleted(stages) {
        state := RunCompleted;
      }
      return Ok(Unit);
    }

    /** The loop that `fail_stage` and `cancel` share. */
    method SkipPending()
      modifies this`stages
      ensures stages == Skip(old(stages))
    {
      ghost var before := stages;
      var todo := stages.Keys;
      while todo != {}
        invariant stages.Keys == before.Keys && todo <= before.Keys
        invariant forall x :: x in before ==> stages[x] == if x in todo then before[x] else Skip(before)[x]
        decreases todo
      {
        var x :| x in todo;
        if stages[x].state == Pending {
          stages := stages[x := stages[x].(state := Skipped)];
        }
        todo := todo - {x};
      }
    }

    method FailStage(id: Id, error: string) returns (r: Outcome)
      modifies this
      ensures (Contents(), r) == FailStageRule(old(Contents()), id, error)
    {
      if id !in stages {
        return Err(StageNotFound(id));
      }
      if stages[id].state != Running {
        return Err(InvalidTransition(id, stages[id].state, "fail_stage"));
      }
      stages := stages[id := stages[id].(state := Failed, error := Some(error))];
      state := RunFailed;
      SkipPending();
      return Ok(Unit);
    }

    method Cancel()
      modifies this
      ensures Contents() == CancelRule(old(Contents()))
    {
      SkipPending();
      state := RunCancelled;
    }
  }

  // ---------- runs ----------

  datatype Event =
    | StartRun
    | StartOf(id: Id, session: string)
    | CompletionOf(id: Id, output: string)
    | FailureOf(id: Id, error: string)
    | CancelRun

  function Apply(p: seq<PipelineStage>, r: Run, e: Event): (Run, Outcome) {
    match e
    case StartRun => StartRule(r)
    case StartOf(id, session) => StartStageRule(p, r, id, session)
    case CompletionOf(id, output) => CompleteStageRule(r, id, output)
    case FailureOf(id, error) => FailStageRule(r, id, error)
    case CancelRun => (CancelRule(r), Ok(Unit))
  }

  /** The run after the given calls on a new run; calls that fail are part of it. */
  function After(p: seq<PipelineStage>, es: seq<Event>): Run {
    if es == [] then NewRun(p) else Apply(p, After(p, es[..|es| - 1]), es[|es| - 1]).0
  }

  lemma {:induction false} AfterPush(p: seq<PipelineStage>, es: seq<Event>, e: Event)
    ensures After(p, es + [e]) == Apply(p, After(p, es), e).0
  {
    assert (es + [e])[..|es|] == es;
  }

  predicate Started(s: StageRun) { s.state in {Running, Completed, Failed} }

  predicate DepsCompleted(p: seq<PipelineStage>, stages: StageRuns, x: Id)
    requires x in DepsOf(p)
  {
    forall d :: d in DepsOf(p)[x] ==> d in stages && stages[d].state == Completed
  }

  predicate NothingPending(stages: StageRuns) {
    forall x :: x in stages ==> stages[x].state != Pending
  }

  predicate NothingLost(stages: StageRuns) {
    forall x :: x in stages ==> stages[x].state !in {Failed, Skipped}
  }

  predicate SomeFailed(stages: StageRuns) {
    exists x :: x in stages && stages[x].state == Failed
  }

  /** What holds of a run in every reachable state. */
  predicate RunInvariant(p: seq<PipelineStage>, r: Run) {
    && r.stages.Keys == Ids(p)
    && (forall x :: x in r.stages && Started(r.stages[x]) ==> DepsCompleted(p, r.stages, x))
    && (r.state == RunCompleted ==> AllCompleted(r.stages))
    && (NothingLost(r.stages) || r.state in {RunFailed, RunCancelled})
    && (r.state in {RunFailed, RunCancelled} ==> NothingPending(r.stages))
    && (r.stages != map[] && AllCompleted(r.stages) ==> r.state in {RunCompleted, RunCancelled})
    && (r.state == RunFailed ==> SomeFailed(r.stages))
  }

  lemma {:induction false} DepsChecked(stages: StageRuns, id: Id, deps: seq<Id>)
    ensures CheckDeps(stages, id, deps).Ok? <==> forall d :: d in deps ==> d in stages && stages[d].state == Completed
  {
    if deps != [] {
      DepsChecked(stages, id, deps[1..]);
    }
  }

  lemma {:induction false} StartStageKeepsInvariant(p: seq<PipelineStage>, r: Run, id: Id, session: string)
    requires RunInvariant(p, r)
    ensures RunInvariant(p, StartStageRule(p, r, id, session).0)
  {
    var (r', out) := StartStageRule(p, r, id, session);
    if out.Ok? {
      DepsChecked(r.stages, id, DepsOf(p)[id]);
      assert r'.stages.Keys == r.stages.Keys;
      assert r.stages[id].state == Pending;
      assert r'.stages[id].state == Running;
      forall x | x in r'.stages && Started(r'.stages[x])
        ensures DepsCompleted(p, r'.stages, x)
      {
        assert DepsCompleted(p, r.stages, x);
      }
    }
  }

  lemma {:induction false} CompleteStageKeepsInvariant(p: seq<PipelineStage>, r: Run, id: Id, output: string)
    requires RunInvariant(p, r)
    ensures RunInvariant(p, CompleteStageRule(r, id, output).0)
  {
    var (r', out) := CompleteStageRule(r, id, output);
    if out.Ok? {
      assert r'.stages.Keys == r.stages.Keys;
      forall x | x in r'.stages && Started(r'.stages[x])
        ensures DepsCompleted(p, r'.stages, x)
      {
        assert Started(r.stages[x]) && DepsCompleted(p, r.stages, x);
      }
    }
  }

  lemma {:induction false} SkipKeepsStarted(p: seq<PipelineStage>, stages: StageRuns)
    requires stages.Keys == Ids(p)
    requires forall x :: x in stages && Started(stages[x]) ==> DepsCompleted(p, stages, x)
    ensures NothingPending(Skip(stages)) && Skip(stages).Keys == Ids(p)
    ensures forall x :: x in stages && Started(Skip(stages)[x]) ==> DepsCompleted(p, Skip(stages), x)
    ensures AllCompleted(Skip(stages)) ==> AllCompleted(stages)
  {
    forall x | x in stages && Started(Skip(stages)[x])
      ensures DepsCompleted(p, Skip(stages), x)
    {
      assert DepsCompleted(p, stages, x);
    }
    assert forall x :: x in stages ==> (Skip(stages)[x].state == Completed <==> stages[x].state == Completed);
  }

  lemma {:induction false} FailStageKeepsInvariant(p: seq<PipelineStage>, r: Run, id: Id, error: string)
    requires RunInvariant(p, r)
    ensures RunInvariant(p, FailStageRule(r, id, error).0)
  {
    if id in r.stages && r.stages[id].state == Running {
      var stages := r.stages[id := r.stages[id].(state := Failed, error := Some(error))];
      forall x | x in stages && Started(stages[x])
        ensures DepsCompleted(p, stages, x)
      {
        assert DepsCompleted(p, r.stages, x);
      }
      SkipKeepsStarted(p, stages);
      assert Skip(stages)[id].state == Failed;
    }
  }

  lemma {:induction false} StepKeepsInvariant(p: seq<PipelineStage>, r: Run, e: Event)
    requires RunInvariant(p, r)
    ensures RunInvariant(p, Apply(p, r, e).0)
  {
    match e
    case StartRun =>
    case StartOf(id, session) => StartStageKeepsInvariant(p, r, id, session);
    case CompletionOf(id, output) => CompleteStageKeepsInvariant(p, r, id, output);
    case FailureOf(id, error) => FailStageKeepsInvariant(p, r, id, error);
    case CancelRun => SkipKeepsStarted(p, r.stages);
  }

  /** In every reachable run a started stage has all its dependencies completed, a
      completed run has only completed stages, and a failed or skipped stage means the
      run failed or was cancelled. */
  lemma {:induction false} ReachableInvariant(p: seq<PipelineStage>, es: seq<Event>)
    ensures RunInvariant(p, After(p, es))
  {
    if es != [] {
      ReachableInvariant(p, es[..|es| - 1]);
      StepKeepsInvariant(p, After(p, es[..|es| - 1]), es[|es| - 1]);
    }
  }

  // ---------- what cannot be undone ----------

  predicate IsTerminal(s: StageRun) { s.state in {Completed, Failed, Skipped} }

  /** Completed, failed and skipped stages never change again, output and all. */
  lemma {:induction false} TerminalStageStays(p: seq<PipelineStage>, r: Run, e: Event, x: Id)
    requires x in r.stages && IsTerminal(r.stages[x])
    ensures x in Apply(p, r, e).0.stages && Apply(p, r, e).0.stages[x] == r.stages[x]
  {
  }

  function StartedSet(stages: StageRuns): set<Id> { set x | x in stages && Started(stages[x]) }

  function CompletedSet(stages: StageRuns): set<Id> { set x | x in stages && stages[x].state == Completed }

  /** A stage can only start from pending, and nothing becomes pending. */
  lemma {:induction false} NoPendingNoStart(p: seq<PipelineStage>, r: Run, e: Event)
    requires NothingPending(r.stages)
    ensures NothingPending(Apply(p, r, e).0.stages)
    ensures StartedSet(Apply(p, r, e).0.stages) <= StartedSet(r.stages)
  {
  }

  lemma {:induction false} NothingPendingStays(p: seq<PipelineStage>, es: seq<Event>, later: seq<Event>)
    requires NothingPending(After(p, es).stages)
    ensures NothingPending(After(p, es + later).stages)
    ensures StartedSet(After(p, es + later).stages) <= StartedSet(After(p, es).stages)
    decreases |later|
  {
    if later == [] {
      assert es + later == es;
    } else {
      var init := later[..|later| - 1];
      NothingPendingStays(p, es, init);
      assert (es + later)[..|es + later| - 1] == es + init;
      NoPendingNoStart(p, After(p, es + init), later[|later| - 1]);
    }
  }

  /** Once a run has failed or was cancelled no stage starts again, whatever is called
      and whatever becomes of the run state, although `start_stage` never reads it. */
  lemma {:induction false} NoStageStartsAfterStop(
      p: seq<PipelineStage>, es: seq<Event>, later: seq<Event>, id: Id, session: string)
    requires After(p, es).state in {RunFailed, RunCancelled}
    ensures StartStageRule(p, After(p, es + later), id, session).1.Err?
    ensures StartedSet(After(p, es + later).stages) <= StartedSet(After(p, es).stages)
  {
    ReachableInvariant(p, es);
    NothingPendingStays(p, es, later);
  }
}
