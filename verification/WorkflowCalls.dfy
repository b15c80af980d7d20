/** What each call on a workflow changes, step by step, and what it leaves alone.
    Over crates/cuartel-core/src/workflow.rs, lines 266 to 412. */
module WorkflowCalls {
  import opened Wrappers
  import opened Workflow
  import opened WorkflowRun

  predicate AtStep(w: Execution, from: set<StepState>) {
    w.state == WorkflowRunning && w.cursor < |w.steps| && w.steps[w.cursor].state in from
  }

  /** Every step but the current one is the very same record. */
  ghost predicate OthersStay(w: Execution, after: Execution) {
    |after.steps| == |w.steps| && forall i :: 0 <= i < |w.steps| && i != w.cursor ==> after.steps[i] == w.steps[i]
  }

  /** Why a call on the current step is refused: the workflow does not run, has no current
      step, or that step is in another state. */
  ghost predicate Refused(w: Execution, r: Outcome, event: string) {
    && r.Err?
    && (r.error == NotRunning <==> w.state != WorkflowRunning)
    && (w.state == WorkflowRunning && |w.steps| <= w.cursor ==> r.error == StepNotFound("__out_of_bounds__"))
    && (w.state == WorkflowRunning && w.cursor < |w.steps| ==>
          r.error == InvalidTransition(w.steps[w.cursor].id, w.steps[w.cursor].state, event))
  }

  lemma {:induction false} NewExactly(def: Definition)
    ensures var w := NewExecution(def);
      && w.state == WorkflowPending && w.cursor == 0 && |w.steps| == |def|
      && forall i :: 0 <= i < |def| ==>
           && w.steps[i].id == def[i].id && w.steps[i].state == Pending && w.steps[i].attempts == 0
           && w.steps[i].output == None && w.steps[i].error == None
  {
  }

  lemma {:induction false} StartExactly(w: Execution)
    ensures var (after, r) := StartRule(w);
      && (r == Ok(Unit) <==> w.state == WorkflowPending) && (r.Err? ==> r.error == AlreadyTerminal && after == w)
      && (r.Ok? ==> after.state == WorkflowRunning)
      && after.steps == w.steps && after.cursor == w.cursor
  {
  }

  lemma {:induction false} BeginExactly(w: Execution)
    ensures var (after, r) := BeginRule(w);
      && (r.Ok? <==> AtStep(w, {Pending})) && (r.Err? ==> Refused(w, r, "begin_step") && after == w)
      && (r.Ok? ==>
            && after.state == WorkflowRunning && after.cursor == w.cursor && OthersStay(w, after)
            && var old', new' := w.steps[w.cursor], after.steps[w.cursor];
              && new'.state == Running && (new'.attempts - old'.attempts - 1) % 0x1_0000_0000 == 0
              && new'.id == old'.id && new'.output == old'.output && new'.error == old'.error)
  {
  }

  lemma {:induction false} CompleteExactly(w: Execution, output: string)
    ensures var (after, r) := CompleteRule(w, output);
      && (r.Ok? <==> AtStep(w, {Running, WaitingForSignal, WaitingForDelay}))
      && (r.Err? ==> Refused(w, r, "complete_step") && after == w)
      && (r.Ok? ==>
            && after.cursor == w.cursor + 1 && OthersStay(w, after)
            && after.state == (if after.cursor == |w.steps| then WorkflowCompleted else WorkflowRunning)
            && var old', new' := w.steps[w.cursor], after.steps[w.cursor];
              && new'.state == Completed && new'.output == Some(output)
              && new'.id == old'.id && new'.error == old'.error && new'.attempts == old'.attempts)
  {
  }

  predicate IsSkipOf(before: StepExecution, after: StepExecution) {
    && after.state == Skipped && after.id == before.id && after.output == before.output
    && after.error == before.error && after.attempts == before.attempts
  }

  /** The steps before the cursor stay, and of those after it only the state changes. */
  ghost predicate SkippedAfter(w: Execution, after: Execution) {
    && |after.steps| == |w.steps|
    && (forall i :: 0 <= i < w.cursor && i < |w.steps| ==> after.steps[i] == w.steps[i])
    && (forall i :: w.cursor < i < |w.steps| ==> IsSkipOf(w.steps[i], after.steps[i]))
  }

  /** A failure is recorded with its error.  The step is retried, and nothing else changes,
      if its attempts are not above the retries of its definition; otherwise it has failed,
      and only the state of the later steps changes. */
  lemma {:induction false} FailExactly(w: Execution, error: string, def: Definition)
    ensures var (after, r) := FailRule(w, error, def);
      && (r.Ok? <==> AtStep(w, {Running})) && (r.Err? ==> Refused(w, r, "fail_step") && after == w)
      && (r.Ok? ==>
            && after.cursor == w.cursor && |after.steps| == |w.steps|
            && var old', new' := w.steps[w.cursor], after.steps[w.cursor];
              && new'.error == Some(error)
              && new'.id == old'.id && new'.output == old'.output && new'.attempts == old'.attempts
              && if old'.attempts <= (if w.cursor < |def| then def[w.cursor].retryCount else 0)
                 then after.state == WorkflowRunning && new'.state == Pending && OthersStay(w, after)
                 else after.state == WorkflowFailed && new'.state == Failed && SkippedAfter(w, after))
  {
  }

  lemma {:induction false} PauseExactly(w: Execution)
    ensures var (after, r) := PauseRule(w);
      && (r.Ok? <==> AtStep(w, {Running})) && (r.Err? ==> Refused(w, r, "pause_at_signal") && after == w)
      && (r.Ok? ==>
            && after.state == WorkflowPaused && after.cursor == w.cursor && OthersStay(w, after)
            && var old', new' := w.steps[w.cursor], after.steps[w.cursor];
              && new'.state == WaitingForSignal && new'.attempts == old'.attempts
              && new'.id == old'.id && new'.output == old'.output && new'.error == old'.error)
  {
  }

  /** Resuming completes the waiting step, as if the workflow had been running. */
  lemma {:induction false} ResumeExactly(w: Execution, output: string)
    ensures var (after, r) := ResumeRule(w, output);
      && (w.state != WorkflowPaused ==> r == Err(NotRunning) && after == w)
      && (w.state == WorkflowPaused && r.Err? ==>
            && after == Execution(WorkflowRunning, w.cursor, w.steps) && Refused(after, r, "complete_step"))
      && (r.Ok? <==>
            && w.state == WorkflowPaused && w.cursor < |w.steps|
            && w.steps[w.cursor].state in {Running, WaitingForSignal, WaitingForDelay})
      && (r.Ok? ==>
            && after.cursor == w.cursor + 1 && OthersStay(w, after)
            && after.state == (if after.cursor == |w.steps| then WorkflowCompleted else WorkflowRunning)
            && after.steps[w.cursor].state == Completed && after.steps[w.cursor].output == Some(output)
            && after.steps[w.cursor].attempts == w.steps[w.cursor].attempts)
  {
  }

  /** A cancel touches just the steps that are pending or wait for a signal, and only their
      state; a step that runs stays running. */
  lemma {:induction false} CancelExactly(w: Execution)
    ensures var after := CancelRule(w);
      && after.state == WorkflowCancelled && after.cursor == w.cursor && |after.steps| == |w.steps|
      && forall i :: 0 <= i < |w.steps| ==>
           if w.steps[i].state in {Pending, WaitingForSignal} then IsSkipOf(w.steps[i], after.steps[i])
           else after.steps[i] == w.steps[i]
  {
  }

  // ---------- cancelling a run ----------

  lemma {:induction false} CancelTwice(w: Execution)
    ensures CancelRule(CancelRule(w)) == CancelRule(w)
  {
  }

  /** Nothing that is called after a cancel changes anything. */
  lemma {:induction false} CancelIsFinal(def: Definition, events: seq<Event>, later: seq<Event>)
    ensures After(def, events + [Cancel] + later) == CancelRule(After(def, events))
    decreases |later|
  {
    if later == [] {
      AfterStep(def, events, Cancel);
      assert events + [Cancel] + later == events + [Cancel];
    } else {
      var before, e := later[..|later| - 1], later[|later| - 1];
      CancelIsFinal(def, events, before);
      assert events + [Cancel] + later == (events + [Cancel] + before) + [e];
      AfterStep(def, events + [Cancel] + before, e);
      CancelTwice(After(def, events));
      EndedStaysEnded(CancelRule(After(def, events)), e, def);
    }
  }

  /** In a run that was live when it was cancelled the completed steps are kept as they were,
      a current step that ran is running for good, any other is skipped, and so is every
      later step. */
  lemma {:induction false} CancelledRun(def: Definition, events: seq<Event>, later: seq<Event>)
    requires IsLive(After(def, events))
    ensures var w, c := After(def, events), After(def, events + [Cancel] + later);
      && c.state == WorkflowCancelled && c.cursor == w.cursor && |c.steps| == |w.steps|
      && (forall i :: 0 <= i < |w.steps| && w.steps[i].state in {Completed, Running} ==> c.steps[i] == w.steps[i])
      && (forall i :: 0 <= i < |w.steps| && w.steps[i].state !in {Completed, Running} ==>
            IsSkipOf(w.steps[i], c.steps[i]))
      && forall i :: 0 <= i < |w.steps| ==>
           (c.steps[i].state == Completed <==> i < c.cursor) && (c.steps[i].state == Running ==> i == c.cursor)
  {
    ReachableInvariant(def, events);
    CancelIsFinal(def, events, later);
    CancelExactly(After(def, events));
  }
}
