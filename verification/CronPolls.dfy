/** Which polls find a job due, exactly: those that some matching minute has passed before.
    Over crates/cuartel-core/src/cron.rs, lines 292 to 336. */
module CronPolls {
  import opened Wrappers
  import opened CronSyntax
  import opened CronSearch
  import opened CronCoverage
  import opened CronSchedule
  import opened CronDue
  import opened PolledRun

  /** The job waits for the first matching minute after `seen`. */
  ghost predicate Waits(j: Job, e: CronExpr, seen: Instant) {
    && Scheduled(j, e) && j.enabled && seen < j.nextRunAt.value
    && forall t :: seen < t < j.nextRunAt.value ==> !MatchingMinute(e, t)
  }

  /** A matching minute has passed since. */
  ghost predicate HasPassed(e: CronExpr, seen: Instant, now: Instant)
    requires e.HasBounds()
  {
    exists t: Instant :: seen < t <= now && MatchingMinute(e, t)
  }

  /** The readings do not go back. */
  predicate Runs(seen: Instant, clock: seq<Instant>)
    decreases |clock|
  {
    clock == [] || (seen <= clock[0] && Runs(clock[0], clock[1..]))
  }

  /** Every poll that finds the job due reschedules it. */
  predicate NoneFails(j: Job, clock: seq<Instant>)
    decreases |clock|
  {
    clock == [] || ((IsDue(j, clock[0]) ==> Reschedules(j, clock[0])) && NoneFails(Poll(j, clock[0]), clock[1..]))
  }

  /** The readings before which, since the reading before, a matching minute has passed. */
  ghost function Passings(e: CronExpr, seen: Instant, clock: seq<Instant>): nat
    requires e.HasBounds()
    decreases |clock|
  {
    if clock == [] then 0
    else (if HasPassed(e, seen, clock[0]) then 1 else 0) + Passings(e, clock[0], clock[1..])
  }

  lemma {:induction false} NewJobWaits(cronExpr: string, now: Instant)
    requires NewJob(cronExpr, now).Ok?
    ensures Waits(NewJob(cronExpr, now).value, Parse(cronExpr).value, now)
  {
    CreateExactly(cronExpr, now);
    var j, e := NewJob(cronExpr, now).value, Parse(cronExpr).value;
    forall t | now < t < j.nextRunAt.value
      ensures !MatchingMinute(e, t)
    {
      assert !Candidate(e, now, t);
    }
  }

  lemma {:induction false} PollWaits(j: Job, e: CronExpr, seen: Instant, now: Instant)
    requires Waits(j, e, seen) && seen <= now && (IsDue(j, now) ==> Reschedules(j, now))
    ensures IsDue(j, now) <==> HasPassed(e, seen, now)
    ensures Waits(Poll(j, now), e, now)
  {
    var after := Poll(j, now);
    if IsDue(j, now) {
      AdvanceExactly(j, now);
      forall t | now < t < after.nextRunAt.value
        ensures !MatchingMinute(e, t)
      {
        assert !Candidate(e, now, t);
      }
    }
  }

  /** While no advance fails, a poll finds the job due if and only if a matching minute has
      passed since the poll before. */
  lemma {:induction false} DueWhenPassed(j: Job, e: CronExpr, seen: Instant, clock: seq<Instant>)
    requires Waits(j, e, seen) && Runs(seen, clock) && NoneFails(j, clock)
    ensures DueCount(j, clock) == Passings(e, seen, clock)
    decreases |clock|
  {
    if clock != [] {
      PollWaits(j, e, seen, clock[0]);
      DueWhenPassed(Poll(j, clock[0]), e, clock[0], clock[1..]);
    }
  }

  /** So from its creation on, with any clock that does not go back. */
  lemma {:induction false} DuePollsExactly(cronExpr: string, created: Instant, clock: seq<Instant>)
    requires NewJob(cronExpr, created).Ok? && Runs(created, clock)
    requires NoneFails(NewJob(cronExpr, created).value, clock)
    ensures DueCount(NewJob(cronExpr, created).value, clock) == Passings(Parse(cronExpr).value, created, clock)
  {
    NewJobWaits(cronExpr, created);
    DueWhenPassed(NewJob(cronExpr, created).value, Parse(cronExpr).value, created, clock);
  }

  // ---------- a poll at every minute ----------

  /** Every whole minute from the given one on, up to `last`. */
  function EveryMinute(minute: int, last: Instant): seq<Instant>
    decreases last - minute * MINUTE
  {
    if last < minute * MINUTE then [] else [minute * MINUTE] + EveryMinute(minute + 1, last)
  }

  /** Between two whole minutes nothing matches. */
  lemma {:induction false} NoMatchBetween(e: CronExpr, minute: int, t: Instant)
    requires e.HasBounds() && (minute - 1) * MINUTE < t < minute * MINUTE
    ensures !MatchingMinute(e, t)
  {
    var m := t / MINUTE;
    assert WholeMinute(t) ==> t == m * MINUTE;
    assert m < minute ==> m * MINUTE <= (minute - 1) * MINUTE;
    assert minute <= m ==> minute * MINUTE <= m * MINUTE;
  }

  lemma {:induction false} OneMinute(e: CronExpr, seen: Instant, minute: int)
    requires e.HasBounds() && (minute - 1) * MINUTE <= seen < minute * MINUTE
    ensures var t := minute * MINUTE;
      && (HasPassed(e, seen, t) <==> MatchingMinute(e, t))
      && Count(MatchingMinuteOf(e), seen + 1, t + 1) == if MatchingMinute(e, t) then 1 else 0
  {
    var t := minute * MINUTE;
    forall u | seen < u < t
      ensures !MatchingMinute(e, u)
    {
      NoMatchBetween(e, minute, u);
    }
    CountNone(MatchingMinuteOf(e), seen + 1, t);
  }

  lemma {:induction false} NoMinuteLeft(e: CronExpr, seen: Instant, minute: int, last: Instant)
    requires e.HasBounds() && (minute - 1) * MINUTE <= seen && last < minute * MINUTE
    ensures Count(MatchingMinuteOf(e), seen + 1, last + 1) == 0
  {
    forall u | seen < u < last + 1
      ensures !MatchingMinute(e, u)
    {
      NoMatchBetween(e, minute, u);
    }
    CountNone(MatchingMinuteOf(e), seen + 1, last + 1);
  }

  lemma {:induction false} PassingsOfMinutes(e: CronExpr, seen: Instant, minute: int, last: Instant)
    requires e.HasBounds() && (minute - 1) * MINUTE <= seen < minute * MINUTE
    ensures Runs(seen, EveryMinute(minute, last))
    ensures Passings(e, seen, EveryMinute(minute, last)) == Count(MatchingMinuteOf(e), seen + 1, last + 1)
    decreases last - minute * MINUTE
  {
    var t := minute * MINUTE;
    if last < t {
      NoMinuteLeft(e, seen, minute, last);
    } else {
      PassingsOfMinutes(e, t, minute + 1, last);
      OneMinute(e, seen, minute);
      CountParts(MatchingMinuteOf(e), seen + 1, t + 1, last + 1);
    }
  }

  lemma {:induction false} DueAreFired(j: Job, clock: seq<Instant>)
    requires NoneFails(j, clock)
    ensures DueCount(j, clock) == |FireTimes(PollStep, NextRun, j, clock)|
    decreases |clock|
  {
    if clock != [] {
      DueAreFired(Poll(j, clock[0]), clock[1..]);
    }
  }

  /** Polled at every whole minute from its creation to `last`, a job is due, and fires,
      exactly once for each matching minute elapsed, while no advance fails. */
  lemma {:induction false} FiresEveryMatchingMinute(cronExpr: string, created: Instant, last: Instant)
    requires NewJob(cronExpr, created).Ok?
    requires NoneFails(NewJob(cronExpr, created).value, EveryMinute(created / MINUTE + 1, last))
    ensures var e, j, clock :=
      Parse(cronExpr).value, NewJob(cronExpr, created).value, EveryMinute(created / MINUTE + 1, last);
      DueCount(j, clock) == |FireTimes(PollStep, NextRun, j, clock)| == MinutesElapsed(e, created, last)
  {
    var e, clock := Parse(cronExpr).value, EveryMinute(created / MINUTE + 1, last);
    PassingsOfMinutes(e, created, created / MINUTE + 1, last);
    DuePollsExactly(cronExpr, created, clock);
    DueAreFired(NewJob(cronExpr, created).value, clock);
  }

  /** An expression without a gap longer than the window never makes an advance fail. */
  lemma {:induction false} AlwaysTickingNeverFails(j: Job, e: CronExpr, clock: seq<Instant>)
    requires Scheduled(j, e) && AlwaysTicks(e)
    ensures NoneFails(j, clock)
    decreases |clock|
  {
    if clock != [] {
      DueIsRescheduled(e, j, clock[0]);
      AlwaysTickingNeverFails(Poll(j, clock[0]), e, clock[1..]);
    }
  }

  /** So it is with every expression that accepts some time and has no such gap. */
  lemma {:induction false} TickingJobFires(cronExpr: string, e: CronExpr, created: Instant, last: Instant)
    requires Parse(cronExpr) == Ok(e) && TimeAccepted(e) && NoLongGap(e)
    ensures NewJob(cronExpr, created).Ok?
    ensures DueCount(NewJob(cronExpr, created).value, EveryMinute(created / MINUTE + 1, last))
         == MinutesElapsed(e, created, last)
  {
    AlwaysTicksExactly(e);
    assert PlainSearch(e, created).Ok?;
    NewJobWaits(cronExpr, created);
    AlwaysTickingNeverFails(NewJob(cronExpr, created).value, e, EveryMinute(created / MINUTE + 1, last));
    FiresEveryMatchingMinute(cronExpr, created, last);
  }

  /** A disabled job is never due, and no poll changes it. */
  lemma {:induction false} DisabledIsNeverDue(j: Job, clock: seq<Instant>)
    requires !j.enabled
    ensures DueCount(j, clock) == 0 && FireTimes(PollStep, NextRun, j, clock) == []
    ensures forall now: Instant :: !IsDue(j, now) && Poll(j, now) == j
    decreases |clock|
  {
    if clock != [] {
      DisabledIsNeverDue(j, clock[1..]);
    }
  }
}
