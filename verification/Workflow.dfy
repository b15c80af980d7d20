/** A linear workflow: a cursor over steps that begin, complete, fail and are retried,
    wait for a signal, or are skipped.
    Models crates/cuartel-core/src/workflow.rs, lines 48 to 54 and 142 to 429. */
module Workflow {
  import opened Wrappers

  type u32 = n: nat | n <= U32_MAX

  /** What a definition says about a step, as far as its execution reads it. */
  datatype WorkflowStep = WorkflowStep(id: string, retryCount: u32)

  type Definition = seq<WorkflowStep>

  datatype StepState = Pending | Running | Completed | Failed | Skipped | WaitingForSignal | WaitingForDelay

  datatype WorkflowState = WorkflowPending | WorkflowRunning | WorkflowCompleted | WorkflowFailed
                         | WorkflowCancelled | WorkflowPaused

  datatype WorkflowError =
    | StepNotFound(id: string)
    | InvalidTransition(step: string, from: StepState, event: string)
    | AlreadyTerminal
    | NotRunning

  /** A step of an execution, without its timestamps. */
  datatype StepExecution = StepExecution(
    id: string, state: StepState, output: Option<string>, error: Option<string>, attempts: u32)

  /** The fields of an execution that its methods read or write, without the timestamps. */
  datatype Execution = Execution(state: WorkflowState, cursor: nat, steps: seq<StepExecution>)

  type Outcome = Result<Unit, WorkflowError>

  const OUT_OF_BOUNDS := "__out_of_bounds__"

  // ---------- what each method does ----------

  function NewSteps(def: Definition): seq<StepExecution> {
    seq(|def|, i requires 0 <= i < |def| => StepExecution(def[i].id, Pending, None, None, 0))
  }

  function NewExecution(def: Definition): Execution { Execution(WorkflowPending, 0, NewSteps(def)) }

  function StartRule(w: Execution): (Execution, Outcome) {
    if w.state != WorkflowPending then (w, Err(AlreadyTerminal)) else (w.(state := WorkflowRunning), Ok(Unit))
  }

  /** What the methods on the current step check first: the workflow runs, there is a
      current step, and it is in one of the states given. */
  function CheckCurrent(w: Execution, from: set<StepState>, event: string): Outcome {
    if w.state != WorkflowRunning then Err(NotRunning)
    else if |w.steps| <= w.cursor then Err(StepNotFound(OUT_OF_BOUNDS))
    else
      var step := w.steps[w.cursor];
      if step.state !in from then Err(InvalidTransition(step.id, step.state, event)) else Ok(Unit)
  }

  function SetCurrent(w: Execution, step: StepExecution): Execution
    requires w.cursor < |w.steps|
  {
    w.(steps := w.steps[w.cursor := step])
  }

  /** One more attempt, counted in a `u32` that wraps around. */
  function OneMore(attempts: u32): u32 { (attempts + 1) % (U32_MAX + 1) }

  function BeginRule(w: Execution): (Execution, Outcome) {
    var check := CheckCurrent(w, {Pending}, "begin_step");
    if check.Err? then (w, check)
    else
      var step := w.steps[w.cursor];
      (SetCurrent(w, step.(state := Running, attempts := OneMore(step.attempts))), Ok(Unit))
  }

  function CompleteRule(w: Execution, output: string): (Execution, Outcome) {
    var check := CheckCurrent(w, {Running, WaitingForSignal, WaitingForDelay}, "complete_step");
    if check.Err? then (w, check)
    else
      var step := w.steps[w.cursor].(state := Completed, output := Some(output));
      (Execution(if w.cursor + 1 >= |w.steps| then WorkflowCompleted else WorkflowRunning, w.cursor + 1,
                 w.steps[w.cursor := step]),
       Ok(Unit))
  }

  function MaxRetries(def: Definition, cursor: nat): u32 {
    if cursor < |def| then def[cursor].retryCount else 0
  }

  /** The steps from `k` on are skipped, whatever their state. */
  function SkipFrom(steps: seq<StepExecution>, k: nat): seq<StepExecution> {
    seq(|steps|, i requires 0 <= i < |steps| => if i < k then steps[i] else steps[i].(state := Skipped))
  }

  function FailRule(w: Execution, error: string, def: Definition): (Execution, Outcome) {
    var check := CheckCurrent(w, {Running}, "fail_step");
    if check.Err? then (w, check)
    else
      var step := w.steps[w.cursor].(error := Some(error));
      if step.attempts <= MaxRetries(def, w.cursor) then (SetCurrent(w, step.(state := Pending)), Ok(Unit))
      else
        (Execution(WorkflowFailed, w.cursor, SkipFrom(w.steps[w.cursor := step.(state := Failed)], w.cursor + 1)),
         Ok(Unit))
  }

  function PauseRule(w: Execution): (Execution, Outcome) {
    var check := CheckCurrent(w, {Running}, "pause_at_signal");
    if check.Err? then (w, check)
    else (SetCurrent(w, w.steps[w.cursor].(state := WaitingForSignal)).(state := WorkflowPaused), Ok(Unit))
  }

  /** The workflow is running again even if the step then cannot be completed. */
  function ResumeRule(w: Execution, output: string): (Execution, Outcome) {
    if w.state != WorkflowPaused then (w, Err(NotRunning))
    else CompleteRule(w.(state := WorkflowRunning), output)
  }

  function SkipIdle(steps: seq<StepExecution>): seq<StepExecution> {
    seq(|steps|, i requires 0 <= i < |steps| =>
      if steps[i].state == Pending || steps[i].state == WaitingForSignal then steps[i].(state := Skipped) else steps[i])
  }

  function CancelRule(w: Execution): Execution { Execution(WorkflowCancelled, w.cursor, SkipIdle(w.steps)) }

  predicate IsTerminal(w: Execution) {
    w.state == WorkflowCompleted || w.state == WorkflowFailed || w.state == WorkflowCancelled
  }

  /** How many steps are completed. */
  function CompletedCount(steps: seq<StepExecution>): nat {
    if steps == [] then 0
    else CompletedCount(steps[..|steps| - 1]) + (if steps[|steps| - 1].state == Completed then 1 else 0)
  }

  // ---------- the object ----------

  class WorkflowExecution {
    var state: WorkflowState
    var currentStepIndex: nat
    var steps: seq<StepExecution>

    function Contents(): Execution
      reads this
    {
      Execution(state, currentStepIndex, steps)
    }

    constructor (def: Definition)
      ensures Contents() == NewExecution(def)
    {
      state, currentStepIndex, steps := WorkflowPending, 0, NewSteps(def);
    }

    method Start() returns (r: Outcome)
      modifies this
      ensures (Contents(), r) == StartRule(old(Contents()))
    {
      if state != WorkflowPending {
        return Err(AlreadyTerminal);
      }
      state := WorkflowRunning;
      return Ok(Unit);
    }

    /** Returns the id of the step that began. */
    method BeginStep() returns (r: Result<string, WorkflowError>)
      modifies this
      ensures var (w, outcome) := BeginRule(old(Contents()));
        && Contents() == w
        && (outcome.Ok? ==> currentStepIndex < |steps| && r == Ok(steps[currentStepIndex].id))
        && (outcome.Err? ==> r == Err(outcome.error))
    {
      if state != WorkflowRunning {
        return Err(NotRunning);
      }
      if |steps| <= currentStepIndex {
        return Err(StepNotFound(OUT_OF_BOUNDS));
      }
      var step := steps[currentStepIndex];
      if step.state != Pending {
        return Err(InvalidTransition(step.id, step.state, "begin_step"));
      }
      steps := steps[currentStepIndex := step.(state := Running, attempts := OneMore(step.attempts))];
      return Ok(steps[currentStepIndex].id);
    }

    method CompleteStep(output: string) returns (r: Outcome)
      modifies this
      ensures (Contents(), r) == CompleteRule(old(Contents()), output)
    {
      if state != WorkflowRunning {
        return Err(NotRunning);
      }
      if |steps| <= currentStepIndex {
        return Err(StepNotFound(OUT_OF_BOUNDS));
      }
      var step := steps[currentStepIndex];
      if step.state != Running && step.state != WaitingForSignal && step.state != WaitingForDelay {
        return Err(InvalidTransition(step.id, step.state, "complete_step"));
      }
      steps := steps[currentStepIndex := step.(state := Completed, output := Some(output))];
      currentStepIndex := currentStepIndex + 1;
      if currentStepIndex >= |steps| {
        state := WorkflowCompleted;
      }
      return Ok(Unit);
    }

    method SkipRemaining()
      requires currentStepIndex < |steps|
      modifies this`steps
      ensures steps == SkipFrom(old(steps), currentStepIndex + 1)
    {
      for k := currentStepIndex + 1 to |steps|
        invariant |steps| == |old(steps)|
        invariant forall i :: 0 <= i < |steps| ==>
                    steps[i] == if currentStepIndex < i < k then old(steps)[i].(state := Skipped) else old(steps)[i]
      {
        steps := steps[k := steps[k].(state := Skipped)];
      }
    }

    method FailStep(error: string, def: Definition) returns (r: Outcome)
      modifies this
      ensures (Contents(), r) == FailRule(old(Contents()), error, def)
    {
      if state != WorkflowRunning {
        return Err(NotRunning);
      }
      var maxRetries: u32 := if currentStepIndex < |def| then def[currentStepIndex].retryCount else 0;
      if |steps| <= currentStepIndex {
        return Err(StepNotFound(OUT_OF_BOUNDS));
      }
      var step := steps[currentStepIndex];
      if step.state != Running {
        return Err(InvalidTransition(step.id, step.state, "fail_step"));
      }
      if step.attempts <= maxRetries {
        steps := steps[currentStepIndex := step.(state := Pending, error := Some(error))];
        return Ok(Unit);
      }
      steps := steps[currentStepIndex := step.(state := Failed, error := Some(error))];
      state := WorkflowFailed;
      SkipRemaining();
      return Ok(Unit);
    }

    method PauseAtSignal() returns (r: Outcome)
      modifies this
      ensures (Contents(), r) == PauseRule(old(Contents()))
    {
      if state != WorkflowRunning {
        return Err(NotRunning);
      }
      if |steps| <= currentStepIndex {
        return Err(StepNotFound(OUT_OF_BOUNDS));
      }
      var step := steps[currentStepIndex];
      if step.state != Running {
        return Err(InvalidTransition(step.id, step.state, "pause_at_signal"));
      }
      steps := steps[currentStepIndex := step.(state := WaitingForSignal)];
      state := WorkflowPaused;
      return Ok(Unit);
    }

    method ResumeFromSignal(output: string) returns (r: Outcome)
      modifies this
      ensures (Contents(), r) == ResumeRule(old(Contents()), output)
    {
      if state != WorkflowPaused {
        return Err(NotRunning);
      }
      state := WorkflowRunning;
      r := CompleteStep(output);
    }

    method Cancel()
      modifies this
      ensures Contents() == CancelRule(old(Contents()))
    {
      for k := 0 to |steps|
        invariant |steps| == |old(steps)| && currentStepIndex == old(currentStepIndex)
        invariant forall i :: 0 <= i < |steps| ==>
                    steps[i] == if i < k then SkipIdle(old(steps))[i] else old(steps)[i]
      {
        if steps[k].state == Pending || steps[k].state == WaitingForSignal {
          steps := steps[k := steps[k].(state := Skipped)];
        }
      }
      state := WorkflowCancelled;
    }

    method Progress() returns (completed: nat, total: nat)
      ensures completed == CompletedCount(steps) && total == |steps|
    {
      completed := 0;
      for k := 0 to |steps|
        invariant completed == CompletedCount(steps[..k])
      {
        assert steps[..k + 1][..k] == steps[..k];
        if steps[k].state == Completed {
          completed := completed + 1;
        }
      }
      assert steps[..|steps|] == steps;
      total := |steps|;
    }
  }

  // ---------- runs ----------

  datatype Event =
    | Start
    | Begin
    | Complete(output: string)
    | Fail(error: string, definition: Definition)
    | Pause
    | Resume(output: string)
    | Cancel

  /** One call; the caller of `fail_step` hands in a definition. */
  function Apply(w: Execution, e: Event): (Execution, Outcome) {
    match e
    case Start => StartRule(w)
    case Begin => BeginRule(w)
    case Complete(output) => CompleteRule(w, output)
    case Fail(error, definition) => FailRule(w, error, definition)
    case Pause => PauseRule(w)
    case Resume(output) => ResumeRule(w, output)
    case Cancel => (CancelRule(w), Ok(Unit))
  }

  /** The execution after some calls, whether or not they succeeded. */
  function After(def: Definition, events: seq<Event>): Execution {
    if events == [] then NewExecution(def)
    else Apply(After(def, events[..|events| - 1]), events[|events| - 1]).0
  }

  /** How many of the calls succeeded, of those that `counted` selects. */
  function Successes(def: Definition, events: seq<Event>, counted: Event -> bool): nat {
    if events == [] then 0
    else
      var before, e := events[..|events| - 1], events[|events| - 1];
      Successes(def, before, counted) + (if counted(e) && Apply(After(def, before), e).1.Ok? then 1 else 0)
  }
}
