/** Scheduled jobs: what a run of polls with a non-decreasing clock can do.
    Models crates/cuartel-core/src/cron.rs, lines 278 to 336. */
module CronSchedule {
  import opened Wrappers
  import opened CronSyntax
  import opened CronSearch
  import opened PolledRun

  /** The fields of a job that its methods read or write. */
  datatype Job = Job(
    cronExpr: string, enabled: bool, lastRunAt: Option<Instant>, nextRunAt: Option<Instant>, createdAt: Instant)

  function NewJob(cronExpr: string, now: Instant): Result<Job, CronError> {
    var parsed :- Parse(cronExpr);
    var next :- PlainSearch(parsed, now);
    Ok(Job(cronExpr, true, None, Some(next), now))
  }

  /** `advance_schedule`: the last run is recorded before anything can fail. */
  function Advance(j: Job, now: Instant): (Job, Result<Unit, CronError>) {
    var j1 := j.(lastRunAt := Some(now));
    match Parse(j.cronExpr)
    case Err(error) => (j1, Err(error))
    case Ok(parsed) =>
      match PlainSearch(parsed, now)
      case Err(error) => (j1, Err(error))
      case Ok(next) => (j1.(nextRunAt := Some(next)), Ok(Unit))
  }

  predicate IsDue(j: Job, now: Instant) {
    j.enabled && j.nextRunAt.Some? && j.nextRunAt.value <= now
  }

  class ScheduledJob {
    var cronExpr: string
    var enabled: bool
    var lastRunAt: Option<Instant>
    var nextRunAt: Option<Instant>
    var createdAt: Instant

    function Contents(): Job
      reads this
    {
      Job(cronExpr, enabled, lastRunAt, nextRunAt, createdAt)
    }

    constructor (j: Job)
      ensures Contents() == j
    {
      cronExpr, enabled, lastRunAt, nextRunAt, createdAt :=
        j.cronExpr, j.enabled, j.lastRunAt, j.nextRunAt, j.createdAt;
    }

    static method Create(cronExpr: string, now: Instant) returns (r: Result<ScheduledJob, CronError>)
      ensures match NewJob(cronExpr, now)
        case Ok(j) => r.Ok? && fresh(r.value) && r.value.Contents() == j
        case Err(error) => r == Err(error)
    {
      var parsed := Parse(cronExpr);
      if parsed.Err? {
        return Err(parsed.error);
      }
      var next := NextTick(parsed.value, now);
      if next.Err? {
        return Err(next.error);
      }
      var job := new ScheduledJob(Job(cronExpr, true, None, Some(next.value), now));
      return Ok(job);
    }

    method AdvanceSchedule(now: Instant) returns (r: Result<Unit, CronError>)
      modifies this
      ensures (Contents(), r) == Advance(old(Contents()), now)
    {
      lastRunAt := Some(now);
      var parsed := Parse(cronExpr);
      if parsed.Err? {
        return Err(parsed.error);
      }
      var next := NextTick(parsed.value, now);
      if next.Err? {
        return Err(next.error);
      }
      nextRunAt := Some(next.value);
      return Ok(Unit);
    }

    method Due(now: Instant) returns (due: bool)
      ensures due <==> IsDue(Contents(), now)
    {
      due := enabled && nextRunAt.Some? && now >= nextRunAt.value;
    }
  }

  // ---------- what a call changes ----------

  /** A job is created enabled, not run yet, and scheduled for the first match after its
      creation; without one, or without an expression that parses, it is not created. */
  lemma {:induction false} CreateExactly(cronExpr: string, now: Instant)
    ensures match Parse(cronExpr)
      case Err(error) => NewJob(cronExpr, now) == Err(error)
      case Ok(e) =>
        && (forall j :: NewJob(cronExpr, now) == Ok(j) <==>
              && j.cronExpr == cronExpr && j.enabled && j.lastRunAt == None && j.createdAt == now
              && j.nextRunAt.Some? && IsLeastCandidate(e, now, j.nextRunAt.value))
        && (NewJob(cronExpr, now) == Err(NoNextTick) <==> !exists t: Instant :: Candidate(e, now, t))
  {
    if Parse(cronExpr).Ok? {
      PlainSearchIsLeast(Parse(cronExpr).value, now);
    }
  }

  /** An advance sets the last run, and on success the next run to the first match after the
      clock; it changes nothing else, and fails without a match or a parsed expression. */
  lemma {:induction false} AdvanceExactly(j: Job, now: Instant)
    ensures var (after, r) := Advance(j, now);
      && after.lastRunAt == Some(now) && after.enabled == j.enabled
      && after.cronExpr == j.cronExpr && after.createdAt == j.createdAt
      && (r.Err? ==> after.nextRunAt == j.nextRunAt)
      && (r.Ok? ==>
            && Parse(j.cronExpr).Ok? && after.nextRunAt.Some?
            && IsLeastCandidate(Parse(j.cronExpr).value, now, after.nextRunAt.value))
      && (r.Err? ==>
            if Parse(j.cronExpr).Err? then r.error == Parse(j.cronExpr).error
            else r.error == NoNextTick && !exists t: Instant :: Candidate(Parse(j.cronExpr).value, now, t))
  {
    if Parse(j.cronExpr).Ok? {
      var e := Parse(j.cronExpr).value;
      PlainSearchFinds(e, now);
    }
  }

  // ---------- runs ----------

  /** One poll: the schedule of a due job is advanced. */
  function Poll(j: Job, now: Instant): Job {
    if IsDue(j, now) then Advance(j, now).0 else j
  }

  predicate Reschedules(j: Job, now: Instant) { IsDue(j, now) && Advance(j, now).1.Ok? }

  /** One poll, and whether it reschedules the job. */
  function PollStep(j: Job, now: Instant): (Job, bool) { (Poll(j, now), Reschedules(j, now)) }

  predicate MatchingMinute(e: CronExpr, t: Instant)
    requires e.HasBounds()
  {
    WholeMinute(t) && Matches(e, t)
  }

  /** What holds of a job from its creation on. */
  predicate Scheduled(j: Job, e: CronExpr) {
    Parse(j.cronExpr) == Ok(e) && j.nextRunAt.Some? && MatchingMinute(e, j.nextRunAt.value)
  }

  lemma {:induction false} CreationSchedules(cronExpr: string, now: Instant)
    requires NewJob(cronExpr, now).Ok?
    ensures var j := NewJob(cronExpr, now).value;
      Scheduled(j, Parse(cronExpr).value) && now < j.nextRunAt.value
  {
    PlainSearchFinds(Parse(cronExpr).value, now);
  }

  /** A poll keeps the schedule; one that reschedules moves `next_run_at` strictly forward,
      past the clock, and any other leaves it. */
  lemma {:induction false} PollMovesForward(j: Job, e: CronExpr, now: Instant)
    requires Scheduled(j, e)
    ensures Scheduled(Poll(j, now), e)
    ensures Reschedules(j, now) ==> j.nextRunAt.value <= now < Poll(j, now).nextRunAt.value
    ensures !Reschedules(j, now) ==> Poll(j, now).nextRunAt == j.nextRunAt
  {
    PlainSearchFinds(e, now);
  }

  /** A failed advance keeps the old `next_run_at`, so the job stays due at every later
      poll; this happens exactly when no matching minute lies in the window. */
  lemma {:induction false} FailedAdvanceStaysDue(j: Job, e: CronExpr, now: Instant, later: Instant)
    requires Scheduled(j, e) && IsDue(j, now) && now <= later
    ensures Advance(j, now).1.Err? <==> forall t: Instant :: !Candidate(e, now, t)
    ensures Advance(j, now).1.Err? ==> Poll(j, now) == j.(lastRunAt := Some(now)) && IsDue(Poll(j, now), later)
  {
    PlainSearchFinds(e, now);
  }

  function NextRun(j: Job): Instant { if j.nextRunAt.Some? then j.nextRunAt.value else 0 }

  function ScheduledFor(e: CronExpr): Job -> bool { (j: Job) => Scheduled(j, e) }

  function MatchingMinuteOf(e: CronExpr): Instant -> bool {
    (t: Instant) => e.HasBounds() && MatchingMinute(e, t)
  }

  lemma {:induction false} PollStepMovesForward(e: CronExpr)
    ensures MovesForward(PollStep, NextRun, ScheduledFor(e), MatchingMinuteOf(e))
  {
    forall j: Job, now: Instant | ScheduledFor(e)(j)
      ensures MovesOn(PollStep, NextRun, ScheduledFor(e), MatchingMinuteOf(e), j, now)
    {
      PollMovesForward(j, e, now);
    }
  }

  lemma {:induction false} NewJobIsScheduled(cronExpr: string, created: Instant)
    requires NewJob(cronExpr, created).Ok?
    ensures ScheduledFor(Parse(cronExpr).value)(NewJob(cronExpr, created).value)
    ensures created < NextRun(NewJob(cronExpr, created).value)
  {
    CreationSchedules(cronExpr, created);
  }

  /** Over any run of polls, a job is rescheduled for strictly increasing matching minutes,
      hence at most once for each one between its creation and the latest clock reading. */
  lemma {:induction false} ReschedulesAtMostOncePerMatchingMinute(
      cronExpr: string, created: Instant, clock: seq<Instant>, last: Instant)
    requires NewJob(cronExpr, created).Ok? && forall i :: 0 <= i < |clock| ==> clock[i] <= last
    ensures var times := FireTimes(PollStep, NextRun, NewJob(cronExpr, created).value, clock);
      && Increasing(times)
      && |times| <= Count(MatchingMinuteOf(Parse(cronExpr).value), created + 1, last + 1)
  {
    var e := Parse(cronExpr).value;
    var j := NewJob(cronExpr, created).value;
    NewJobIsScheduled(cronExpr, created);
    PollStepMovesForward(e);
    FiresCounted(PollStep, NextRun, ScheduledFor(e), MatchingMinuteOf(e), j, clock, created + 1, last);
  }
}
