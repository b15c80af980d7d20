/** What every run of a workflow keeps, and how long it can be.
    Over crates/cuartel-core/src/workflow.rs, lines 239 to 429. */
module WorkflowRun {
  import opened Wrappers
  import opened Workflow

  // ---------- the invariant ----------

  predicate IsLive(w: Execution) { !IsTerminal(w) }

  /** Every step before the cursor is completed, and what is known of those after it. */
  ghost predicate AroundCursor(w: Execution) {
    && w.cursor <= |w.steps|
    && (forall i :: 0 <= i < w.cursor ==> w.steps[i].state == Completed)
    && (forall i :: w.cursor < i < |w.steps| ==>
          if IsLive(w) then w.steps[i].state == Pending && w.steps[i].attempts == 0
          else w.steps[i].state == Skipped)
  }

  /** The states in which the current step can be. */
  predicate CurrentStates(state: WorkflowState, step: StepState) {
    match state
    case WorkflowPending => step == Pending
    case WorkflowRunning => step == Pending || step == Running
    case WorkflowPaused => step == WaitingForSignal
    case WorkflowCompleted => false
    case WorkflowFailed => step == Failed
    case WorkflowCancelled => step == Skipped || step == Running || step == Failed
  }

  predicate CursorInvariant(w: Execution) {
    && (w.state == WorkflowPending ==> w.cursor == 0)
    && (if w.cursor < |w.steps| then CurrentStates(w.state, w.steps[w.cursor].state)
        else if w.state == WorkflowPending || w.state == WorkflowRunning then w.cursor == 0
        else w.state == WorkflowCompleted || w.state == WorkflowCancelled)
  }

  /** The attempts of a step stay within its budget, leave one for a step that is pending
      again, and are used up when it fails.  With `u32::MAX` retries the counter wraps
      around first. */
  predicate Within(step: StepExecution, retries: u32) {
    && step.attempts <= retries + 1
    && (step.state == Pending ==> retries < U32_MAX ==> step.attempts <= retries)
    && (step.state == Failed ==> step.attempts == retries + 1)
  }

  /** What holds whatever definitions `fail_step` is handed. */
  ghost predicate Shape(w: Execution, def: Definition) {
    && AroundCursor(w) && CursorInvariant(w) && |w.steps| == |def|
    && forall i :: 0 <= i < |def| ==> w.steps[i].id == def[i].id
  }

  /** What holds as long as it is handed the definition of the execution. */
  ghost predicate Attempts(w: Execution, def: Definition) {
    |w.steps| == |def| && forall i :: 0 <= i < |def| ==> Within(w.steps[i], def[i].retryCount)
  }

  ghost predicate Invariant(w: Execution, def: Definition) { Shape(w, def) && Attempts(w, def) }

  lemma {:induction false} BeginKeepsInvariant(w: Execution, def: Definition)
    requires Shape(w, def)
    ensures Shape(BeginRule(w).0, def)
    ensures Attempts(w, def) ==> Attempts(BeginRule(w).0, def)
  {
  }

  lemma {:induction false} CompleteKeepsInvariant(w: Execution, output: string, def: Definition)
    requires Shape(w, def)
    ensures Shape(CompleteRule(w, output).0, def)
    ensures Attempts(w, def) ==> Attempts(CompleteRule(w, output).0, def)
  {
  }

  lemma {:induction false} FailKeepsInvariant(w: Execution, error: string, given: Definition, def: Definition)
    requires Shape(w, def)
    ensures Shape(FailRule(w, error, given).0, def)
    ensures Attempts(w, def) && given == def ==> Attempts(FailRule(w, error, given).0, def)
  {
  }

  lemma {:induction false} PauseKeepsInvariant(w: Execution, def: Definition)
    requires Shape(w, def)
    ensures Shape(PauseRule(w).0, def)
    ensures Attempts(w, def) ==> Attempts(PauseRule(w).0, def)
  {
  }

  lemma {:induction false} ResumeKeepsInvariant(w: Execution, output: string, def: Definition)
    requires Shape(w, def)
    ensures Shape(ResumeRule(w, output).0, def)
    ensures Attempts(w, def) ==> Attempts(ResumeRule(w, output).0, def)
  {
  }

  lemma {:induction false} CancelKeepsInvariant(w: Execution, def: Definition)
    requires Shape(w, def)
    ensures Shape(CancelRule(w), def)
    ensures Attempts(w, def) ==> Attempts(CancelRule(w), def)
  {
  }

  predicate Own(e: Event, def: Definition) { e.Fail? ==> e.definition == def }

  predicate AllOwn(events: seq<Event>, def: Definition) { forall e :: e in events ==> Own(e, def) }

  lemma {:induction false} ApplyKeepsInvariant(w: Execution, e: Event, def: Definition)
    requires Shape(w, def)
    ensures Shape(Apply(w, e).0, def)
    ensures Attempts(w, def) && Own(e, def) ==> Attempts(Apply(w, e).0, def)
  {
    match e
    case Start =>
    case Begin => BeginKeepsInvariant(w, def);
    case Complete(output) => CompleteKeepsInvariant(w, output, def);
    case Fail(error, given) => FailKeepsInvariant(w, error, given, def);
    case Pause => PauseKeepsInvariant(w, def);
    case Resume(output) => ResumeKeepsInvariant(w, output, def);
    case Cancel => CancelKeepsInvariant(w, def);
  }

  lemma {:induction false} AfterStep(def: Definition, events: seq<Event>, e: Event)
    ensures After(def, events + [e]) == Apply(After(def, events), e).0
    ensures forall counted ::
      Successes(def, events + [e], counted)
      == Successes(def, events, counted) + (if counted(e) && Apply(After(def, events), e).1.Ok? then 1 else 0)
  {
  }

  /** The shape holds after every run, and the whole invariant after every run in which
      `fail_step` is handed the definition of the execution. */
  lemma {:induction false} ReachableInvariant(def: Definition, events: seq<Event>)
    ensures Shape(After(def, events), def)
    ensures AllOwn(events, def) ==> Attempts(After(def, events), def)
  {
    if events != [] {
      var before, e := events[..|events| - 1], events[|events| - 1];
      assert e in events && forall x :: x in before ==> x in events;
      ReachableInvariant(def, before);
      ApplyKeepsInvariant(After(def, before), e, def);
    }
  }

  // ---------- what it means ----------

  /** A workflow is paused exactly while its current step waits for a signal; resuming it
      then never fails half-way.  No step ever waits for a delay. */
  lemma {:induction false} PausedIsWaiting(def: Definition, events: seq<Event>, output: string)
    ensures var w := After(def, events);
      && (w.state == WorkflowPaused <==> w.cursor < |w.steps| && w.steps[w.cursor].state == WaitingForSignal)
      && (w.state == WorkflowPaused <==> ResumeRule(w, output).1.Ok?)
      && (ResumeRule(w, output).1.Err? ==> ResumeRule(w, output).0 == w)
      && forall i :: 0 <= i < |w.steps| ==> w.steps[i].state != WaitingForDelay
  {
    ReachableInvariant(def, events);
  }

  lemma {:induction false} CompletedPrefix(steps: seq<StepExecution>, c: nat, n: nat)
    requires c <= |steps| && n <= |steps|
    requires forall i :: 0 <= i < |steps| ==> (steps[i].state == Completed <==> i < c)
    ensures CompletedCount(steps[..n]) == if n < c then n else c
  {
    if 0 < n {
      CompletedPrefix(steps, c, n - 1);
      assert steps[..n][..n - 1] == steps[..n - 1];
    }
  }

  /** What the progress bar shows is the cursor, and all of it only when every step is done. */
  lemma {:induction false} ProgressIsCursor(def: Definition, events: seq<Event>)
    ensures var w := After(def, events);
      && CompletedCount(w.steps) == w.cursor <= |w.steps| == |def|
      && (w.state == WorkflowCompleted ==> w.cursor == |def|)
      && (def != [] && w.cursor == |def| ==> w.state == WorkflowCompleted || w.state == WorkflowCancelled)
  {
    ReachableInvariant(def, events);
    var w := After(def, events);
    CompletedPrefix(w.steps, w.cursor, |w.steps|);
    assert w.steps[..|w.steps|] == w.steps;
  }

  /** The attempt counter of a step never wraps around, unless it has `u32::MAX` retries. */
  lemma {:induction false} CounterIsExact(def: Definition, events: seq<Event>)
    requires AllOwn(events, def)
    ensures var w := After(def, events);
      w.cursor < |def| && def[w.cursor].retryCount < U32_MAX && BeginRule(w).1.Ok? ==>
        && BeginRule(w).0.steps[w.cursor].attempts == w.steps[w.cursor].attempts + 1
        && w.steps[w.cursor].attempts <= def[w.cursor].retryCount
  {
    ReachableInvariant(def, events);
  }

  /** A step fails for good exactly when its retries are used up, and then every step after
      it is skipped. */
  lemma {:induction false} FailsForGood(def: Definition, events: seq<Event>, error: string)
    requires AllOwn(events, def)
    ensures var w := After(def, events);
      var (after, outcome) := FailRule(w, error, def);
      outcome.Ok? ==>
        && w.cursor < |def| && |w.steps| == |after.steps| == |def|
        && (after.state == WorkflowFailed <==> w.steps[w.cursor].attempts == def[w.cursor].retryCount + 1)
        && (after.state == WorkflowFailed ==>
              forall i :: w.cursor < i < |def| ==> after.steps[i] == w.steps[i].(state := Skipped))
  {
    ReachableInvariant(def, events);
  }

  /** A workflow that has ended refuses every call but `cancel`, unchanged. */
  lemma {:induction false} EndedStaysEnded(w: Execution, e: Event, def: Definition)
    requires IsTerminal(w)
    ensures IsTerminal(Apply(w, e).0)
    ensures !e.Cancel? ==> Apply(w, e).0 == w && Apply(w, e).1.Err?
  {
  }

  // ---------- how long a run can be ----------

  /** Attempts that the steps from `k` on can have. */
  function Total(def: Definition, k: nat): nat
    decreases |def| - k
  {
    if |def| <= k then 0 else def[k].retryCount + 1 + Total(def, k + 1)
  }

  /** Attempts that are left. */
  function Left(w: Execution, def: Definition): int {
    Total(def, w.cursor) - (if w.cursor < |w.steps| then w.steps[w.cursor].attempts else 0)
  }

  predicate Finite(def: Definition) { forall i :: 0 <= i < |def| ==> def[i].retryCount < U32_MAX }

  predicate IsBegin(e: Event) { e.Begin? }

  predicate IsCall(e: Event) { !e.Cancel? }

  /** What is left before the workflow must have ended, cancelled or not. */
  function Fuel(w: Execution, def: Definition): int {
    if IsTerminal(w) then 0
    else
      3 * Left(w, def)
      + (if w.state != WorkflowRunning then 1
         else if w.cursor < |w.steps| && w.steps[w.cursor].state == Running then 2 else 0)
  }

  lemma {:induction false} LeftNotNegative(w: Execution, def: Definition)
    requires Invariant(w, def)
    ensures 0 <= Left(w, def)
  {
  }

  lemma {:induction false} CallUsesLeft(w: Execution, e: Event, def: Definition)
    requires Invariant(w, def) && Finite(def) && Own(e, def)
    ensures Left(Apply(w, e).0, def) + (if e.Begin? && Apply(w, e).1.Ok? then 1 else 0) <= Left(w, def)
  {
    ApplyKeepsInvariant(w, e, def);
  }

  lemma {:induction false} CallUsesFuel(w: Execution, e: Event, def: Definition)
    requires Invariant(w, def) && Finite(def) && Own(e, def)
    ensures Fuel(Apply(w, e).0, def) + (if !e.Cancel? && Apply(w, e).1.Ok? then 1 else 0) <= Fuel(w, def)
    ensures 0 <= Fuel(w, def)
  {
    LeftNotNegative(w, def);
    CallUsesLeft(w, e, def);
  }

  lemma {:induction false} BeginsAndLeft(def: Definition, events: seq<Event>)
    requires Finite(def) && AllOwn(events, def)
    ensures Successes(def, events, IsBegin) + Left(After(def, events), def) <= Total(def, 0)
  {
    if events != [] {
      var before := events[..|events| - 1];
      assert events[|events| - 1] in events && forall e :: e in before ==> e in events;
      BeginsAndLeft(def, before);
      ReachableInvariant(def, before);
      CallUsesLeft(After(def, before), events[|events| - 1], def);
    }
  }

  /** No run begins more steps than the retries allow. */
  lemma {:induction false} BeginsAreBounded(def: Definition, events: seq<Event>)
    requires Finite(def) && AllOwn(events, def)
    ensures Successes(def, events, IsBegin) <= Total(def, 0)
  {
    BeginsAndLeft(def, events);
    ReachableInvariant(def, events);
    LeftNotNegative(After(def, events), def);
  }

  lemma {:induction false} CallsAndFuel(def: Definition, events: seq<Event>)
    requires Finite(def) && AllOwn(events, def)
    ensures Successes(def, events, IsCall) + Fuel(After(def, events), def) <= 3 * Total(def, 0) + 1
  {
    if events != [] {
      var before := events[..|events| - 1];
      assert events[|events| - 1] in events && forall e :: e in before ==> e in events;
      CallsAndFuel(def, before);
      ReachableInvariant(def, before);
      CallUsesFuel(After(def, before), events[|events| - 1], def);
    }
  }

  /** In any run at most three calls for each attempt succeed, and one start. */
  lemma {:induction false} CallsAreBounded(def: Definition, events: seq<Event>)
    requires Finite(def) && AllOwn(events, def)
    ensures Successes(def, events, IsCall) <= 3 * Total(def, 0) + 1
  {
    CallsAndFuel(def, events);
    ReachableInvariant(def, events);
    CallUsesFuel(After(def, events), Cancel, def);
  }

  /** Until it has ended, a workflow with steps always accepts some call: a run that cannot
      go on has ended. */
  lemma {:induction false} AlwaysACall(def: Definition, events: seq<Event>)
    requires def != []
    ensures var w := After(def, events);
      IsTerminal(w) <==> forall e :: IsCall(e) ==> Apply(w, e).1.Err?
  {
    ReachableInvariant(def, events);
    var w := After(def, events);
    if !IsTerminal(w) {
      var e := if w.state == WorkflowPending then Start
               else if w.state == WorkflowPaused then Resume("")
               else if w.steps[w.cursor].state == Pending then Begin else Complete("");
      assert IsCall(e) && Apply(w, e).1.Ok?;
    }
  }

  /** A workflow without steps never completes: once started it can only be cancelled. */
  lemma {:induction false} EmptyNeverCompletes(events: seq<Event>)
    ensures After([], events).state in {WorkflowPending, WorkflowRunning, WorkflowCancelled}
    ensures After([], events).steps == [] && After([], events).cursor == 0
  {
    if events != [] {
      EmptyNeverCompletes(events[..|events| - 1]);
    }
  }

  // ---------- the one budget that is no bound ----------

  /** Start, and complete the first `k` steps. */
  function PathTo(k: nat): seq<Event> {
    if k == 0 then [Start] else PathTo(k - 1) + [Begin] + [Complete("")]
  }

  /** Then begin and fail `n` times, with the definition `given`. */
  function Retries(given: Definition, k: nat, n: nat): seq<Event> {
    if n == 0 then PathTo(k) else Retries(given, k, n - 1) + [Begin] + [Fail("", given)]
  }

  predicate ReadyAt(w: Execution, k: nat) {
    w.state == WorkflowRunning && w.cursor == k < |w.steps| && w.steps[k].state == Pending
  }

  lemma {:induction false} CompleteOne(w: Execution, def: Definition, k: nat)
    requires Shape(w, def) && ReadyAt(w, k) && k + 1 < |def|
    ensures ReadyAt(CompleteRule(BeginRule(w).0, "").0, k + 1)
  {
  }

  /** After beginning a step and one more call. */
  lemma {:induction false} AfterTwo(def: Definition, events: seq<Event>, e: Event)
    requires !e.Begin?
    ensures var w := After(def, events);
      && After(def, events + [Begin] + [e]) == Apply(BeginRule(w).0, e).0
      && Successes(def, events + [Begin] + [e], IsBegin)
         == Successes(def, events, IsBegin) + (if BeginRule(w).1.Ok? then 1 else 0)
  {
    AfterStep(def, events, Begin);
    AfterStep(def, events + [Begin], e);
  }

  lemma {:induction false} OneCompletion(def: Definition, k: nat, events: seq<Event>)
    requires k + 1 < |def|
    ensures ReadyAt(After(def, events), k) ==> ReadyAt(After(def, events + [Begin] + [Complete("")]), k + 1)
  {
    if ReadyAt(After(def, events), k) {
      ReachableInvariant(def, events);
      CompleteOne(After(def, events), def, k);
      AfterTwo(def, events, Complete(""));
    }
  }

  lemma {:induction false} StartReady(def: Definition)
    requires def != []
    ensures ReadyAt(After(def, PathTo(0)), 0)
  {
    assert After(def, []) == NewExecution(def);
    assert PathTo(0) == [] + [Start];
    AfterStep(def, [], Start);
  }

  lemma {:induction false} PathReaches(def: Definition, k: nat)
    requires k < |def|
    ensures ReadyAt(After(def, PathTo(k)), k)
  {
    if k == 0 {
      StartReady(def);
    } else {
      var before := PathTo(k - 1);
      PathReaches(def, k - 1);
      OneCompletion(def, k - 1, before);
    }
  }

  lemma {:induction false} PathIsOwn(def: Definition, k: nat)
    ensures AllOwn(PathTo(k), def)
  {
    if 0 < k {
      PathIsOwn(def, k - 1);
    }
  }

  lemma {:induction false} RetriesAreOwn(def: Definition, k: nat, n: nat)
    ensures AllOwn(Retries(def, k, n), def)
  {
    if n == 0 {
      PathIsOwn(def, k);
    } else {
      RetriesAreOwn(def, k, n - 1);
    }
  }

  lemma {:induction false} OneRetry(def: Definition, given: Definition, k: nat, events: seq<Event>)
    requires k < |given| && given[k].retryCount == U32_MAX && ReadyAt(After(def, events), k)
    ensures ReadyAt(After(def, events + [Begin] + [Fail("", given)]), k)
    ensures Successes(def, events + [Begin] + [Fail("", given)], IsBegin) == Successes(def, events, IsBegin) + 1
  {
    AfterTwo(def, events, Fail("", given));
  }

  lemma {:induction false} RetriesBegin(def: Definition, given: Definition, k: nat, n: nat)
    requires k < |def| && k < |given| && given[k].retryCount == U32_MAX
    ensures ReadyAt(After(def, Retries(given, k, n)), k) && n <= Successes(def, Retries(given, k, n), IsBegin)
  {
    if n == 0 {
      PathReaches(def, k);
    } else {
      RetriesBegin(def, given, k, n - 1);
      OneRetry(def, given, k, Retries(given, k, n - 1));
    }
  }

  ghost predicate BoundedBy(def: Definition, bound: nat) {
    forall events :: AllOwn(events, def) ==> Successes(def, events, IsBegin) <= bound
  }

  /** The number of attempts is bounded over all runs with their own definition if and only
      if no step has `u32::MAX` retries. */
  lemma {:induction false} BoundedIffFinite(def: Definition)
    ensures (exists bound: nat :: BoundedBy(def, bound)) <==> Finite(def)
  {
    if Finite(def) {
      forall events | AllOwn(events, def)
        ensures Successes(def, events, IsBegin) <= Total(def, 0)
      {
        BeginsAreBounded(def, events);
      }
      assert BoundedBy(def, Total(def, 0));
    } else {
      var k :| 0 <= k < |def| && def[k].retryCount == U32_MAX;
      forall bound: nat
        ensures !BoundedBy(def, bound)
      {
        RetriesBegin(def, def, k, bound + 1);
        RetriesAreOwn(def, k, bound + 1);
      }
    }
  }

  /** Handed another definition, no workflow with steps has a bound. */
  lemma {:induction false} ForeignDefinitionHasNoBound(def: Definition, bound: nat) returns (events: seq<Event>)
    requires def != []
    ensures bound < Successes(def, events, IsBegin)
  {
    var given := [WorkflowStep("", U32_MAX)];
    RetriesBegin(def, given, 0, bound + 1);
    events := Retries(given, 0, bound + 1);
  }
}
