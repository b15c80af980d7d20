/** For which expressions `next_tick` succeeds after every instant, decided from the
    fields over one 400-year cycle of the calendar.
    Over crates/cuartel-core/src/cron.rs, lines 177 to 210. */
module CronCoverage {
  import opened Wrappers
  import opened Text
  import opened Calendar
  import opened CronSyntax
  import opened CronSearch
  import opened CronWindow

  // ---------- the 400-year cycle ----------

  /** Days of 400 years, which are whole weeks. */
  const CYCLE: int := 146097

  lemma {:induction false} CycleLeap(year: int)
    ensures IsLeapYear(year + 400) == IsLeapYear(year)
  {
  }

  lemma {:induction false} CycleMonths(year: int, month: int)
    requires 1 <= month <= 13
    ensures DaysBeforeMonth(year + 400, month) == DaysBeforeMonth(year, month)
    decreases month
  {
    if 1 < month {
      CycleMonths(year, month - 1);
      CycleLeap(year);
    }
  }

  lemma {:induction false} CycleQuotients(y: int)
    ensures (y + 400) / 4 == y / 4 + 100 && (y + 400) / 100 == y / 100 + 4 && (y + 400) / 400 == y / 400 + 1
  {
  }

  lemma {:induction false} CycleYears(year: int)
    ensures DaysBeforeYear(year + 400) == DaysBeforeYear(year) + CYCLE
  {
    CycleQuotients(year - 1);
  }

  lemma {:induction false} CycleDays(d: Date)
    requires ValidDate(d)
    ensures var later := d.(year := d.year + 400);
      ValidDate(later) && DayNumber(later) == DayNumber(d) + CYCLE
  {
    CycleYears(d.year);
    CycleMonths(d.year, d.month);
    CycleLeap(d.year);
  }

  lemma {:induction false} CycleWeeks(n: int)
    ensures DayOfWeek(n + CYCLE) == DayOfWeek(n)
  {
    assert n + CYCLE + 4 == n + 4 + 7 * 20871;
  }

  /** The calendar and the weekdays repeat every 400 years. */
  lemma {:induction false} CycleDate(n: int)
    ensures DateOf(n + CYCLE) == DateOf(n).(year := DateOf(n).year + 400)
    ensures DayOfWeek(n + CYCLE) == DayOfWeek(n)
  {
    CycleDays(DateOf(n));
    CycleWeeks(n);
    DayNumberOfDate(n);
    DateOfDayNumber(DateOf(n).(year := DateOf(n).year + 400));
  }

  // ---------- the dates and times of an expression ----------

  /** The month, the day of the month and the weekday of day `n` are accepted. */
  predicate DateAccepted(e: CronExpr, n: int)
    requires e.HasBounds()
  {
    e.month.Matches(DateOf(n).month) && e.dayOfMonth.Matches(DateOf(n).day) && e.dayOfWeek.Matches(DayOfWeek(n))
  }

  predicate AcceptsTime(e: CronExpr, hour: nat, minute: nat)
    requires e.HasBounds()
  {
    hour < 24 && minute < 60 && e.hour.Matches(hour) && e.minute.Matches(minute)
  }

  predicate TimeAccepted(e: CronExpr)
    requires e.HasBounds()
  {
    exists hour: nat, minute: nat :: hour < 24 && minute < 60 && AcceptsTime(e, hour, minute)
  }

  /** Some accepted day lies among the 1464 days after day `n`. */
  predicate DateFollows(e: CronExpr, n: int)
    requires e.HasBounds()
  {
    exists k :: n < k <= n + 1464 && DateAccepted(e, k)
  }

  /** No gap of the cycle is longer than the window: a check over the fields alone. */
  predicate NoLongGap(e: CronExpr)
    requires e.HasBounds()
  {
    forall n :: 0 <= n < CYCLE ==> DateFollows(e, n)
  }

  lemma {:induction false} CycleAccepted(e: CronExpr, n: int)
    requires e.HasBounds()
    ensures DateAccepted(e, n + CYCLE) <==> DateAccepted(e, n)
  {
    CycleDate(n);
  }

  lemma {:induction false} CyclesAccepted(e: CronExpr, n: int, c: int)
    requires e.HasBounds()
    ensures DateAccepted(e, n + CYCLE * c) <==> DateAccepted(e, n)
    decreases if c < 0 then -c else c
  {
    if 0 < c {
      CyclesAccepted(e, n, c - 1);
      CycleAccepted(e, n + CYCLE * (c - 1));
    } else if c < 0 {
      CyclesAccepted(e, n, c + 1);
      CycleAccepted(e, n + CYCLE * c);
    }
  }

  /** One cycle speaks for all days. */
  lemma {:induction false} CycleSuffices(e: CronExpr, n: int)
    requires e.HasBounds() && NoLongGap(e)
    ensures DateFollows(e, n)
  {
    var r, c := n % CYCLE, n / CYCLE;
    assert DateFollows(e, r);
    var k :| r < k <= r + 1464 && DateAccepted(e, k);
    CyclesAccepted(e, k, c);
    assert DateAccepted(e, k + CYCLE * c);
  }

  // ---------- dates and times make ticks ----------

  lemma {:induction false} MatchesAtDate(e: CronExpr, k: int, hour: nat, minute: nat)
    requires e.HasBounds() && AcceptsTime(e, hour, minute) && DateAccepted(e, k)
    ensures Matches(e, At(k, hour, minute)) && WholeMinute(At(k, hour, minute))
  {
    ClockOf(k, hour, minute);
  }

  lemma {:induction false} MatchHasDateAndTime(e: CronExpr, t: Instant)
    requires e.HasBounds() && Matches(e, t)
    ensures DateAccepted(e, DayIndex(t)) && TimeAccepted(e)
  {
    assert AcceptsTime(e, HourOf(t), MinuteOf(t));
  }

  /** A clock time of one of 1464 consecutive days lies in the window: of the days after
      that of `after` if the time of day has passed, else of those from it on. */
  lemma {:induction false} DayInWindow(after: Instant, k: int, hour: int, minute: int)
    requires 0 <= hour < 24 && 0 <= minute < 60
    requires var n := if At(DayIndex(after), hour, minute) <= after then DayIndex(after) else DayIndex(after) - 1;
      n < k <= n + 1464
    ensures after < At(k, hour, minute) <= after + WINDOW
  {
  }

  lemma {:induction false} DatesGiveTicks(e: CronExpr, after: Instant)
    requires e.HasBounds() && TimeAccepted(e) && forall n :: DateFollows(e, n)
    ensures PlainSearch(e, after).Ok?
  {
    var hour: nat, minute: nat :| hour < 24 && minute < 60 && AcceptsTime(e, hour, minute);
    var n := if At(DayIndex(after), hour, minute) <= after then DayIndex(after) else DayIndex(after) - 1;
    assert DateFollows(e, n);
    var k :| n < k <= n + 1464 && DateAccepted(e, k);
    MatchesAtDate(e, k, hour, minute);
    DayInWindow(after, k, hour, minute);
    HasCandidate(e, after, At(k, hour, minute));
  }

  lemma {:induction false} TickBeforeMidnight(n: int, t: Instant)
    requires Midnight(n + 1) - 1 < t <= Midnight(n + 1) - 1 + WINDOW
    ensures n < DayIndex(t) <= n + 1464
  {
    MidnightBounds(t, n + 1);
    MidnightBounds(t, n + 1465);
  }

  lemma {:induction false} TicksGiveDates(e: CronExpr, n: int)
    requires e.HasBounds() && PlainSearch(e, Midnight(n + 1) - 1).Ok?
    ensures TimeAccepted(e) && DateFollows(e, n)
  {
    var after := Midnight(n + 1) - 1;
    PlainSearchFinds(e, after);
    var t := PlainSearch(e, after).value;
    MatchHasDateAndTime(e, t);
    TickBeforeMidnight(n, t);
  }

  ghost predicate AlwaysTicks(e: CronExpr)
    requires e.HasBounds()
  {
    forall after: Instant :: PlainSearch(e, after).Ok?
  }

  /** There is a next tick after every instant if and only if some time of day is accepted
      and no gap between accepted dates of one 400-year cycle is longer than the window. */
  lemma {:induction false} AlwaysTicksExactly(e: CronExpr)
    requires e.HasBounds()
    ensures AlwaysTicks(e) <==> TimeAccepted(e) && NoLongGap(e)
  {
    if TimeAccepted(e) && NoLongGap(e) {
      forall n
        ensures DateFollows(e, n)
      {
        CycleSuffices(e, n);
      }
      forall after: Instant
        ensures PlainSearch(e, after).Ok?
      {
        DatesGiveTicks(e, after);
      }
    }
    if AlwaysTicks(e) {
      TicksGiveDates(e, 0);
      forall n | 0 <= n < CYCLE
        ensures DateFollows(e, n)
      {
        TicksGiveDates(e, n);
      }
    }
  }

  /** With a free weekday the check comes down to a date other than 29 February. */
  lemma {:induction false} FreeWeekdayHasNoLongGap(e: CronExpr)
    requires e.HasBounds() && EveryWeekday(e)
    ensures TimeAccepted(e) && NoLongGap(e) <==> AcceptsYearlyDate(e)
  {
    AlwaysTicksExactly(e);
    FreeWeekdayTicksExactly(e);
  }

  // ---------- when there is never a tick ----------

  /** No time of day, or no date of the cycle, is accepted. */
  predicate NeverMatches(e: CronExpr)
    requires e.HasBounds()
  {
    !TimeAccepted(e) || forall k :: 0 <= k < CYCLE ==> !DateAccepted(e, k)
  }

  lemma {:induction false} NeverMatchesExactly(e: CronExpr)
    requires e.HasBounds()
    ensures NeverMatches(e) <==> forall t: Instant :: WholeMinute(t) ==> !Matches(e, t)
  {
    if NeverMatches(e) {
      forall t: Instant | WholeMinute(t)
        ensures !Matches(e, t)
      {
        if Matches(e, t) {
          MatchHasDateAndTime(e, t);
          var k := DayIndex(t);
          CyclesAccepted(e, k % CYCLE, k / CYCLE);
        }
      }
    } else {
      var hour: nat, minute: nat :| hour < 24 && minute < 60 && AcceptsTime(e, hour, minute);
      var k :| 0 <= k < CYCLE && DateAccepted(e, k);
      MatchesAtDate(e, k, hour, minute);
    }
  }

  lemma {:induction false} EarlierDay(t: Instant, latest: Instant)
    requires DayIndex(t) < DayIndex(latest)
    ensures t < latest
  {
  }

  /** Dates repeat, so an accepted one lies before any day. */
  lemma {:induction false} DateBefore(e: CronExpr, n: int) returns (day: int)
    requires e.HasBounds() && !NeverMatches(e)
    ensures day < n && DateAccepted(e, day)
  {
    var k :| 0 <= k < CYCLE && DateAccepted(e, k);
    var c := n / CYCLE - 1;
    CyclesAccepted(e, k, c);
    day := k + CYCLE * c;
  }

  /** What matches at all has matched before any instant. */
  lemma {:induction false} MatchBefore(e: CronExpr, latest: Instant) returns (t: Instant)
    requires e.HasBounds() && !NeverMatches(e)
    ensures t <= latest && WholeMinute(t) && Matches(e, t)
  {
    var hour: nat, minute: nat :| hour < 24 && minute < 60 && AcceptsTime(e, hour, minute);
    var day := DateBefore(e, DayIndex(latest));
    t := At(day, hour, minute);
    MatchesAtDate(e, day, hour, minute);
    ClockOf(day, hour, minute);
    EarlierDay(t, latest);
  }

  // ---------- a week of some month ----------

  /** Seven days in a row of a month that every year has, and some weekday. */
  predicate AcceptsWeek(e: CronExpr, month: nat, first: nat)
    requires e.HasBounds()
  {
    && 1 <= month <= 12 && 1 <= first <= 22 && e.month.Matches(month)
    && (forall day: nat :: first <= day < first + 7 ==> e.dayOfMonth.Matches(day))
    && exists weekday: nat :: weekday < 7 && e.dayOfWeek.Matches(weekday)
  }

  lemma {:induction false} WeekdayWithinWeek(m: int, weekday: nat) returns (i: nat)
    requires weekday < 7
    ensures i < 7 && DayOfWeek(m + i) == weekday
  {
    i := (weekday - DayOfWeek(m)) % 7;
  }

  lemma {:induction false} WeekFollows(e: CronExpr, month: nat, first: nat, n: int)
    requires e.HasBounds() && AcceptsWeek(e, month, first)
    ensures DateFollows(e, n)
  {
    var weekday: nat :| weekday < 7 && e.dayOfWeek.Matches(weekday);
    var d := Date(DateOf(n).year + 1, month, first);
    var m := DayNumber(d);
    NextYearIsNear(n, d);
    DateOfDayNumber(d);
    var i := WeekdayWithinWeek(m, weekday);
    DaysWithinMonth(m, i);
    assert DateAccepted(e, m + i);
  }

  /** An expression that accepts a week of some month, in particular a whole month, with
      some weekday and some time of day always has a next tick. */
  lemma {:induction false} WeekAlwaysTicks(e: CronExpr, month: nat, first: nat)
    requires e.HasBounds() && TimeAccepted(e) && AcceptsWeek(e, month, first)
    ensures AlwaysTicks(e)
  {
    forall n | 0 <= n < CYCLE
      ensures DateFollows(e, n)
    {
      WeekFollows(e, month, first, n);
    }
    AlwaysTicksExactly(e);
  }

  const WORKDAYS_AT_NINE := "0 9 * * 1-5"

  function WorkdaysExpr(): CronExpr {
    CronExpr(
      CronField(Exact(0), 0, 59), CronField(Exact(9), 0, 23), CronField(Any, 1, 31),
      CronField(Any, 1, 12), CronField(Range(1, 5), 0, 6))
  }

  lemma {:induction false} WorkdaysLiteral()
    ensures Join(["0", "9", "*", "*", "1-5"], ' ') == WORKDAYS_AT_NINE
  {
    JoinFive("0", "9", "*", "*", "1-5");
  }

  lemma {:induction false} WorkdaysFieldTexts()
    ensures FieldTexts(WorkdaysExpr()) == ["0", "9", "*", "*", "1-5"]
  {
    assert ToDecimal(0) == "0" && ToDecimal(9) == "9" && ToDecimal(1) == "1" && ToDecimal(5) == "5";
    var e := WorkdaysExpr();
    assert ValueText(e.minute.value) == ToDecimal(0) && ValueText(e.hour.value) == ToDecimal(9);
    assert ValueText(e.dayOfWeek.value) == "1-5";
  }

  lemma {:induction false} WorkdaysText()
    ensures Parse(WORKDAYS_AT_NINE) == Ok(WorkdaysExpr())
  {
    WorkdaysFieldTexts();
    WorkdaysLiteral();
    PrintedExpr(WorkdaysExpr());
  }

  lemma {:induction false} WorkdaysTick()
    ensures AlwaysTicks(WorkdaysExpr())
  {
    var e := WorkdaysExpr();
    assert AcceptsTime(e, 9, 0);
    assert e.dayOfWeek.Matches(1);
    WeekAlwaysTicks(e, 1, 1);
  }

  /** The usual nine o'clock on workdays is one of them. */
  lemma {:induction false} WorkdaysAlwaysTick()
    ensures Parse(WORKDAYS_AT_NINE) == Ok(WorkdaysExpr()) && AlwaysTicks(WorkdaysExpr())
  {
    WorkdaysText();
    WorkdaysTick();
  }

  /** 1 January on a Monday has longer gaps, though it is not among what never matches. */
  lemma {:induction false} MondayNewYearHasLongGap()
    ensures !NoLongGap(MondayNewYear()) && !NeverMatches(MondayNewYear())
  {
    var e := MondayNewYear();
    MondayNewYearMissed();
    assert AcceptsTime(e, 0, 0);
    AlwaysTicksExactly(e);
    MondayNewYear2029();
    MondayNewYearMatches(2029);
    NeverMatchesExactly(e);
    ClockOf(DayNumber(Date(2029, 1, 1)), 0, 0);
  }
}
