/** How often a job is due.  A due job whose rescheduling fails keeps its `next_run_at`, so
    `collect_due_jobs` returns it at every later poll.
    Over crates/cuartel-core/src/cron.rs, lines 292 to 336. */
module CronDue {
  import opened Wrappers
  import opened Calendar
  import opened CronSyntax
  import opened CronSearch
  import opened CronWindow
  import opened CronCoverage
  import opened CronSchedule
  import opened PolledRun

  // ---------- when rescheduling can fail ----------

  /** Rescheduling succeeds at every clock reading if and only if some time of day is
      accepted and no gap between accepted dates is longer than the window. */
  lemma {:induction false} AdvanceAlwaysSucceeds(j: Job, e: CronExpr)
    requires Parse(j.cronExpr) == Ok(e)
    ensures (forall now: Instant :: Advance(j, now).1.Ok?) <==> TimeAccepted(e) && NoLongGap(e)
  {
    AlwaysTicksExactly(e);
    if forall now: Instant :: Advance(j, now).1.Ok? {
      forall after: Instant
        ensures PlainSearch(e, after).Ok?
      {
        assert Advance(j, after).1.Ok?;
      }
    }
  }

  lemma {:induction false} DueIsRescheduled(e: CronExpr, j: Job, now: Instant)
    requires Scheduled(j, e) && AlwaysTicks(e)
    ensures Scheduled(Poll(j, now), e) && (IsDue(j, now) <==> Reschedules(j, now))
  {
    PollMovesForward(j, e, now);
  }

  // ---------- the bound on due polls ----------

  /** The polls of a run that find the job due. */
  function DueCount(j: Job, clock: seq<Instant>): nat { DuePolls(PollStep, IsDue, j, clock) }

  /** The matching minutes after the creation of a job, up to the latest reading. */
  function MinutesElapsed(e: CronExpr, created: Instant, last: Instant): nat {
    Count(MatchingMinuteOf(e), created + 1, last + 1)
  }

  ghost predicate DueWithin(cronExpr: string, e: CronExpr, created: Instant, clock: seq<Instant>, last: Instant) {
    NewJob(cronExpr, created).Ok? && (forall i :: 0 <= i < |clock| ==> clock[i] <= last) ==>
      DueCount(NewJob(cronExpr, created).value, clock) <= MinutesElapsed(e, created, last)
  }

  lemma {:induction false} DueAtMostOnce(
      cronExpr: string, e: CronExpr, created: Instant, clock: seq<Instant>, last: Instant)
    requires Parse(cronExpr) == Ok(e) && AlwaysTicks(e)
    ensures DueWithin(cronExpr, e, created, clock, last)
  {
    if NewJob(cronExpr, created).Ok? && forall i :: 0 <= i < |clock| ==> clock[i] <= last {
      var j := NewJob(cronExpr, created).value;
      NewJobIsScheduled(cronExpr, created);
      forall r: Job, now: Instant | ScheduledFor(e)(r)
        ensures FiresWhenDue(PollStep, IsDue, ScheduledFor(e), r, now)
      {
        DueIsRescheduled(e, r, now);
      }
      DuePollsFire(PollStep, NextRun, IsDue, ScheduledFor(e), j, clock);
      ReschedulesAtMostOncePerMatchingMinute(cronExpr, created, clock, last);
    }
  }

  lemma {:induction false} NoJobWithoutMatch(cronExpr: string, e: CronExpr, created: Instant)
    requires Parse(cronExpr) == Ok(e) && NeverMatches(e)
    ensures NewJob(cronExpr, created).Err?
  {
    NeverMatchesExactly(e);
    PlainSearchFinds(e, created);
  }

  // ---------- a job that stays due ----------

  /** A job created just before a matching minute is scheduled for it. */
  lemma {:induction false} CreatedJustBefore(cronExpr: string, e: CronExpr, t: Instant)
    requires Parse(cronExpr) == Ok(e) && MatchingMinute(e, t)
    ensures NewJob(cronExpr, t - 1) == Ok(Job(cronExpr, true, None, Some(t), t - 1))
  {
    assert IsLeastCandidate(e, t - 1, t);
    PlainSearchIsLeast(e, t - 1);
  }

  /** Scheduled for `t` with the given expression, and not rescheduled since. */
  function StuckAt(cronExpr: string, t: Instant): Job -> bool {
    (j: Job) => j.cronExpr == cronExpr && j.enabled && j.nextRunAt == Some(t)
  }

  lemma {:induction false} StuckPoll(cronExpr: string, e: CronExpr, t: Instant, now: Instant, j: Job)
    requires Parse(cronExpr) == Ok(e) && t <= now && PlainSearch(e, now).Err? && StuckAt(cronExpr, t)(j)
    ensures IsDue(j, now) && StuckAt(cronExpr, t)(PollStep(j, now).0)
  {
  }

  /** Once no match lies in the window, every one of any number of polls finds it due. */
  lemma {:induction false} DueAtEveryPoll(cronExpr: string, e: CronExpr, t: Instant, now: Instant, n: nat)
    requires Parse(cronExpr) == Ok(e) && MatchingMinute(e, t) && t <= now && PlainSearch(e, now).Err?
    ensures NewJob(cronExpr, t - 1).Ok?
    ensures DueCount(NewJob(cronExpr, t - 1).value, Repeated(now, n)) == n
  {
    CreatedJustBefore(cronExpr, e, t);
    forall j: Job | StuckAt(cronExpr, t)(j)
      ensures IsDue(j, now) && StuckAt(cronExpr, t)(PollStep(j, now).0)
    {
      StuckPoll(cronExpr, e, t, now, j);
    }
    StaysDue(PollStep, IsDue, StuckAt(cronExpr, t), NewJob(cronExpr, t - 1).value, now, n);
  }

  lemma {:induction false} LongGapBreaksBound(cronExpr: string, e: CronExpr)
    returns (created: Instant, clock: seq<Instant>, last: Instant)
    requires Parse(cronExpr) == Ok(e) && !AlwaysTicks(e) && !NeverMatches(e)
    ensures !DueWithin(cronExpr, e, created, clock, last)
  {
    last :| PlainSearch(e, last).Err?;
    var t := MatchBefore(e, last);
    created := t - 1;
    var n := MinutesElapsed(e, created, last) + 1;
    clock := Repeated(last, n);
    DueAtEveryPoll(cronExpr, e, t, last, n);
  }

  /** Over every creation and every clock a job is due at most once for each matching minute
      elapsed, if and only if its expression has no gap longer than the window, or never
      matches at all. */
  lemma {:induction false} DueAtMostOncePerMatchingMinute(cronExpr: string, e: CronExpr)
    requires Parse(cronExpr) == Ok(e)
    ensures (forall created, clock, last :: DueWithin(cronExpr, e, created, clock, last))
        <==> (TimeAccepted(e) && NoLongGap(e)) || NeverMatches(e)
  {
    AlwaysTicksExactly(e);
    if AlwaysTicks(e) {
      forall created, clock, last
        ensures DueWithin(cronExpr, e, created, clock, last)
      {
        DueAtMostOnce(cronExpr, e, created, clock, last);
      }
    } else if NeverMatches(e) {
      forall created, clock, last
        ensures DueWithin(cronExpr, e, created, clock, last)
      {
        NoJobWithoutMatch(cronExpr, e, created);
      }
    } else {
      var created, clock, last := LongGapBreaksBound(cronExpr, e);
    }
  }

  // ---------- the leap day job ----------

  lemma {:induction false} MidnightClock(t: Instant)
    requires WholeMinute(t) && HourOf(t) == 0 && MinuteOf(t) == 0
    ensures t == Midnight(DayIndex(t))
  {
    var hours := (t / MINUTE) / 60;
    assert t / MINUTE == 60 * hours;
    assert t == hours * HOUR;
    var days := hours / 24;
    assert hours == 24 * days;
    assert t == days * DAY;
  }

  lemma {:induction false} LeapDayMidnights(t: Instant)
    requires WholeMinute(t) && Matches(LeapDayExpr(), t)
    ensures t == Midnight(DayIndex(t)) && MonthOf(t) == 2 && DayOfMonth(t) == 29
  {
    var e := LeapDayExpr();
    assert e.minute.value == Exact(0) && e.hour.value == Exact(0);
    assert e.dayOfMonth.value == Exact(29) && e.month.value == Exact(2);
    MidnightClock(t);
  }

  lemma {:induction false} OneLeapDay(day: int, t: Instant)
    requires DateOf(day) == Date(2096, 2, 29) && Midnight(day) < t <= Midnight(day + 1)
    ensures !MatchingMinuteOf(LeapDayExpr())(t)
  {
    if MatchingMinuteOf(LeapDayExpr())(t) {
      LeapDayMidnights(t);
      MidnightBounds(t, day + 1);
      MidnightBounds(t, day + 2);
      NextDay(day);
    }
  }

  lemma {:induction false} OneMinuteElapsed(day: int)
    requires DateOf(day) == Date(2096, 2, 29)
    ensures MatchingMinute(LeapDayExpr(), Midnight(day))
    ensures MinutesElapsed(LeapDayExpr(), Midnight(day) - 1, Midnight(day + 1)) == 1
  {
    ClockOf(day, 0, 0);
    assert MatchingMinute(LeapDayExpr(), Midnight(day));
    assert MatchingMinuteOf(LeapDayExpr())(Midnight(day));
    forall m | Midnight(day) < m < Midnight(day + 1) + 1
      ensures !MatchingMinuteOf(LeapDayExpr())(m)
    {
      OneLeapDay(day, m);
    }
    CountOnly(MatchingMinuteOf(LeapDayExpr()), Midnight(day), Midnight(day + 1) + 1);
  }

  lemma {:induction false} MarchAfter(day: int)
    requires DateOf(day) == Date(2096, 2, 29)
    ensures PlainSearch(LeapDayExpr(), Midnight(day + 1)).Err?
  {
    NextDay(day);
    DayNumberOfDate(day + 1);
    LeapDayNotFound(Midnight(day + 1));
  }

  lemma {:induction false} LeapDay2096() returns (day: int)
    ensures DateOf(day) == Date(2096, 2, 29)
  {
    day := DayNumber(Date(2096, 2, 29));
    DateOfDayNumber(Date(2096, 2, 29));
  }

  /** A job for midnight of every 29 February, scheduled for that of 2096 and polled any
      number of times at the midnight after, is due each time, although only one matching
      minute has elapsed. */
  lemma {:induction false} LeapDayJobStaysDue(n: nat) returns (day: int)
    ensures DateOf(day) == Date(2096, 2, 29)
    ensures Parse(LEAP_DAY_MIDNIGHT) == Ok(LeapDayExpr()) && NewJob(LEAP_DAY_MIDNIGHT, Midnight(day) - 1).Ok?
    ensures DueCount(NewJob(LEAP_DAY_MIDNIGHT, Midnight(day) - 1).value, Repeated(Midnight(day + 1), n)) == n
    ensures MinutesElapsed(LeapDayExpr(), Midnight(day) - 1, Midnight(day + 1)) == 1
  {
    day := LeapDay2096();
    LeapDayText();
    OneMinuteElapsed(day);
    MarchAfter(day);
    DueAtEveryPoll(LEAP_DAY_MIDNIGHT, LeapDayExpr(), Midnight(day), Midnight(day + 1), n);
  }
}
