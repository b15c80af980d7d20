/** How far the four-year window of `next_tick` reaches.  For an ordinary date with any
    weekday it always suffices; for 29 February it does not span a skipped leap year,
    although the comment on the window says it covers leap years.
    Over crates/cuartel-core/src/cron.rs, lines 177 to 210. */
module CronWindow {
  import opened Wrappers
  import opened Text
  import opened Calendar
  import opened CronSyntax
  import opened CronSearch

  /** The instant at the given clock time of a day. */
  function At(day: int, hour: int, minute: int): Instant { day * DAY + hour * HOUR + minute * MINUTE }

  lemma {:induction false} ClockOf(day: int, hour: int, minute: int)
    requires 0 <= hour < 24 && 0 <= minute < 60
    ensures var t := At(day, hour, minute);
      DayIndex(t) == day && HourOf(t) == hour && MinuteOf(t) == minute && WholeMinute(t)
  {
    var t := At(day, hour, minute);
    assert t == (day * 1440 + hour * 60 + minute) * MINUTE;
    assert t / HOUR == day * 24 + hour;
    assert t / MINUTE == day * 1440 + hour * 60 + minute;
  }

  predicate EveryWeekday(e: CronExpr)
    requires e.HasBounds()
  {
    forall w: nat :: w < 7 ==> e.dayOfWeek.Matches(w)
  }

  /** The expression accepts this month, day, hour and minute. */
  predicate Accepts(e: CronExpr, month: nat, day: nat, hour: nat, minute: nat)
    requires e.HasBounds() && 1 <= month && 1 <= day
  {
    && e.month.Matches(month) && e.dayOfMonth.Matches(day)
    && e.hour.Matches(hour) && e.minute.Matches(minute)
  }

  lemma {:induction false} AcceptedInstantMatches(e: CronExpr, d: Date, hour: nat, minute: nat)
    requires e.HasBounds() && EveryWeekday(e) && ValidDate(d) && hour < 24 && minute < 60
    requires Accepts(e, d.month, d.day, hour, minute)
    ensures Matches(e, At(DayNumber(d), hour, minute)) && WholeMinute(At(DayNumber(d), hour, minute))
  {
    ClockOf(DayNumber(d), hour, minute);
    DateOfDayNumber(d);
  }

  lemma {:induction false} NextYearIsNear(n: int, d: Date)
    requires ValidDate(d) && d.year == DateOf(n).year + 1
    ensures n < DayNumber(d) <= n + 731
  {
    DayNumberOfDate(n);
    DayNumberInjective(DateOf(n), d);
    YearLength(d.year);
    YearLength(d.year - 1);
    MonthsInOrder(d.year, d.month + 1, 13);
    MonthsInOrder(d.year - 1, 1, DateOf(n).month);
  }

  lemma {:induction false} InsideWindow(after: Instant, day: int, hour: int, minute: int)
    requires 0 <= hour < 24 && 0 <= minute < 60
    requires DayIndex(after) < day <= DayIndex(after) + 731
    ensures after < At(day, hour, minute) <= after + WINDOW
  {
  }

  lemma {:induction false} HasCandidate(e: CronExpr, after: Instant, t: Instant)
    requires e.HasBounds() && Candidate(e, after, t)
    ensures PlainSearch(e, after).Ok?
  {
    PlainSearchFinds(e, after);
  }

  /** An expression that leaves the weekday free and accepts any date other than
      29 February has a next tick after every instant. */
  lemma {:induction false} OrdinaryDatesAlwaysTick(
      e: CronExpr, month: nat, day: nat, hour: nat, minute: nat, after: Instant)
    requires e.HasBounds() && EveryWeekday(e)
    requires 1 <= month <= 12 && 1 <= day <= DaysInMonth(1, month) && hour < 24 && minute < 60
    requires Accepts(e, month, day, hour, minute)
    ensures PlainSearch(e, after).Ok?
  {
    var n := DayIndex(after);
    var d := Date(DateOf(n).year + 1, month, day);
    NextYearIsNear(n, d);
    InsideWindow(after, DayNumber(d), hour, minute);
    AcceptedInstantMatches(e, d, hour, minute);
    HasCandidate(e, after, At(DayNumber(d), hour, minute));
  }

  const LEAP_DAY_MIDNIGHT := "0 0 29 2 *"

  function LeapDayExpr(): CronExpr {
    CronExpr(
      CronField(Exact(0), 0, 59), CronField(Exact(0), 0, 23), CronField(Exact(29), 1, 31),
      CronField(Exact(2), 1, 12), CronField(Any, 0, 6))
  }

  lemma {:induction false} LeapDaysAroundYear2100(d: Date)
    requires ValidDate(d) && d.month == 2 && d.day == 29
    requires DayNumber(Date(2096, 3, 1)) <= DayNumber(d)
    ensures DayNumber(Date(2096, 3, 1)) + 2900 < DayNumber(d)
  {
    MonthOffsets(2096);
    MonthOffsets(d.year);
    if d.year <= 2095 {
      DayNumberInjective(d, Date(2096, 3, 1));
    } else if 2104 <= d.year {
      YearsInOrder(2104, d.year);
    }
  }

  lemma {:induction false} NoLeapDayInWindow(t: Instant)
    requires Midnight(DayNumber(Date(2096, 3, 1))) < t <= Midnight(DayNumber(Date(2096, 3, 1))) + WINDOW
    ensures !(MonthOf(t) == 2 && DayOfMonth(t) == 29)
  {
    var from := DayNumber(Date(2096, 3, 1));
    var n := DayIndex(t);
    MidnightBounds(t, from + 1465);
    MidnightBounds(t, from);
    DayNumberOfDate(n);
    if DateOf(n).month == 2 && DateOf(n).day == 29 {
      LeapDaysAroundYear2100(DateOf(n));
    }
  }

  lemma {:induction false} JoinFive(a: string, b: string, c: string, d: string, f: string)
    ensures Join([a, b, c, d, f], ' ') == a + " " + b + " " + c + " " + d + " " + f
  {
    var all := [a, b, c, d, f];
    assert all[1..] == [b, c, d, f] && all[1..][1..] == [c, d, f] && all[1..][1..][1..] == [d, f];
    assert Join([d, f], ' ') == d + " " + f by { assert [d, f][1..] == [f]; }
    assert Join([c, d, f], ' ') == c + " " + d + " " + f by { assert [c, d, f][1..] == [d, f]; }
    assert Join([b, c, d, f], ' ') == b + " " + c + " " + d + " " + f by { assert [b, c, d, f][1..] == [c, d, f]; }
  }

  lemma {:induction false} LeapDayLiteral()
    ensures Join(["0", "0", "29", "2", "*"], ' ') == LEAP_DAY_MIDNIGHT
  {
    JoinFive("0", "0", "29", "2", "*");
  }

  lemma {:induction false} DecimalTexts()
    ensures ToDecimal(0) == "0" && ToDecimal(2) == "2" && ToDecimal(29) == "29"
  {
  }

  lemma {:induction false} LeapDayFieldTexts()
    ensures FieldTexts(LeapDayExpr()) == ["0", "0", "29", "2", "*"]
  {
    DecimalTexts();
    var e := LeapDayExpr();
    assert ValueText(e.minute.value) == ToDecimal(0) && ValueText(e.hour.value) == ToDecimal(0);
    assert ValueText(e.dayOfMonth.value) == ToDecimal(29);
    assert ValueText(e.month.value) == ToDecimal(2);
  }

  lemma {:induction false} LeapDayText()
    ensures ExprText(LeapDayExpr()) == LEAP_DAY_MIDNIGHT && Parse(LEAP_DAY_MIDNIGHT) == Ok(LeapDayExpr())
  {
    LeapDayFieldTexts();
    LeapDayLiteral();
    PrintedExpr(LeapDayExpr());
  }

  lemma {:induction false} LeapDateLater(march: Date, leap: Date)
    requires march == Date(2096, 3, 1) && leap == Date(2104, 2, 29)
    ensures DayNumber(march) < DayNumber(leap)
  {
    DayNumberInjective(march, leap);
  }

  lemma {:induction false} LeapDateMatches(e: CronExpr, leap: Date)
    requires e == LeapDayExpr() && leap == Date(2104, 2, 29)
    ensures Matches(e, At(DayNumber(leap), 0, 0))
  {
    AcceptedInstantMatches(e, leap, 0, 0);
  }

  lemma {:induction false} LeapDayMatchesLater(march: Instant, leap: Instant)
    requires march == Midnight(DayNumber(Date(2096, 3, 1))) && leap == At(DayNumber(Date(2104, 2, 29)), 0, 0)
    ensures march < leap && Matches(LeapDayExpr(), leap)
  {
    LeapDateLater(Date(2096, 3, 1), Date(2104, 2, 29));
    LeapDateMatches(LeapDayExpr(), Date(2104, 2, 29));
  }

  lemma {:induction false} LeapDayNotFound(march: Instant)
    requires march == Midnight(DayNumber(Date(2096, 3, 1)))
    ensures PlainSearch(LeapDayExpr(), march) == Err(NoNextTick)
  {
    forall t: Instant
      ensures !Candidate(LeapDayExpr(), march, t)
    {
      if march < t <= march + WINDOW {
        NoLeapDayInWindow(t);
      }
    }
    PlainSearchFinds(LeapDayExpr(), march);
  }

  /** The window is too short: after 1 March 2096 there is a matching instant, on
      29 February 2104, and the search reports that there is none. */
  lemma {:induction false} LeapDayMissedAcross2100(march: Instant, leap: Instant)
    requires march == Midnight(DayNumber(Date(2096, 3, 1))) && leap == At(DayNumber(Date(2104, 2, 29)), 0, 0)
    ensures march < leap && Matches(LeapDayExpr(), leap) && PlainSearch(LeapDayExpr(), march) == Err(NoNextTick)
    ensures Parse(LEAP_DAY_MIDNIGHT) == Ok(LeapDayExpr())
  {
    LeapDayMatchesLater(march, leap);
    LeapDayNotFound(march);
    LeapDayText();
  }

  // ---------- when there is always a next tick ----------

  predicate AcceptsYearly(e: CronExpr, month: nat, day: nat, hour: nat, minute: nat)
    requires e.HasBounds()
  {
    && 1 <= month <= 12 && 1 <= day <= DaysInMonth(1, month) && hour < 24 && minute < 60
    && Accepts(e, month, day, hour, minute)
  }

  /** The expression accepts a minute of some date that every year has. */
  ghost predicate AcceptsYearlyDate(e: CronExpr)
    requires e.HasBounds()
  {
    exists month, day, hour, minute :: AcceptsYearly(e, month, day, hour, minute)
  }

  lemma {:induction false} MatchAccepts(e: CronExpr, t: Instant)
    requires e.HasBounds() && Matches(e, t) && !(MonthOf(t) == 2 && DayOfMonth(t) == 29)
    ensures AcceptsYearlyDate(e)
  {
    assert ValidDate(DateOf(DayIndex(t)));
    assert AcceptsYearly(e, MonthOf(t), DayOfMonth(t), HourOf(t), MinuteOf(t));
  }

  /** An expression that leaves the weekday free has a next tick after every instant if and
      only if it accepts some date other than 29 February. */
  lemma {:induction false} FreeWeekdayTicksExactly(e: CronExpr)
    requires e.HasBounds() && EveryWeekday(e)
    ensures (forall after: Instant :: PlainSearch(e, after).Ok?) <==> AcceptsYearlyDate(e)
  {
    if AcceptsYearlyDate(e) {
      var month, day, hour, minute :| AcceptsYearly(e, month, day, hour, minute);
      forall after: Instant
        ensures PlainSearch(e, after).Ok?
      {
        OrdinaryDatesAlwaysTick(e, month, day, hour, minute, after);
      }
    }
    var after := Midnight(DayNumber(Date(2096, 3, 1)));
    if PlainSearch(e, after).Ok? {
      PlainSearchFinds(e, after);
      NoLeapDayInWindow(PlainSearch(e, after).value);
      MatchAccepts(e, PlainSearch(e, after).value);
    }
  }

  /** Midnight of 1 January, on Mondays. */
  function MondayNewYear(): CronExpr {
    CronExpr(
      CronField(Exact(0), 0, 59), CronField(Exact(0), 0, 23), CronField(Exact(1), 1, 31),
      CronField(Exact(1), 1, 12), CronField(Exact(1), 0, 6))
  }

  lemma {:induction false} NoMondayNewYear(d: Date)
    requires ValidDate(d) && d.month == 1 && d.day == 1
    requires DayNumber(Date(2024, 1, 2)) <= DayNumber(d) <= DayNumber(Date(2024, 1, 2)) + 1464
    ensures DayOfWeek(DayNumber(d)) != 1
  {
    if d.year <= 2024 {
      YearsInOrder(d.year, 2024);
    } else if 2029 <= d.year {
      YearsInOrder(2029, d.year);
    }
    assert d.year in {2025, 2026, 2027, 2028};
  }

  lemma {:induction false} NewYearInWindow(t: Instant)
    requires MonthOf(t) == 1 && DayOfMonth(t) == 1
    requires Midnight(DayNumber(Date(2024, 1, 2))) < t <= Midnight(DayNumber(Date(2024, 1, 2))) + WINDOW
    ensures WeekdayOf(t) != 1
  {
    var from := DayNumber(Date(2024, 1, 2));
    MidnightBounds(t, from + 1465);
    MidnightBounds(t, from);
    DayNumberOfDate(DayIndex(t));
    NoMondayNewYear(DateOf(DayIndex(t)));
  }

  lemma {:induction false} NoNewYearCandidate(t: Instant)
    ensures !Candidate(MondayNewYear(), Midnight(DayNumber(Date(2024, 1, 2))), t)
  {
    var after := Midnight(DayNumber(Date(2024, 1, 2)));
    if after < t <= after + WINDOW && MonthOf(t) == 1 && DayOfMonth(t) == 1 {
      NewYearInWindow(t);
    }
  }

  /** Midnight of 1 January matches in every year in which it is a Monday. */
  lemma {:induction false} MondayNewYearMatches(year: int)
    requires DayOfWeek(DayNumber(Date(year, 1, 1))) == 1
    ensures Matches(MondayNewYear(), At(DayNumber(Date(year, 1, 1)), 0, 0))
  {
    ClockOf(DayNumber(Date(year, 1, 1)), 0, 0);
    DateOfDayNumber(Date(year, 1, 1));
  }

  /** Such a year is 2029. */
  lemma {:induction false} MondayNewYear2029()
    ensures DayOfWeek(DayNumber(Date(2029, 1, 1))) == 1
    ensures DayNumber(Date(2024, 1, 2)) < DayNumber(Date(2029, 1, 1))
  {
    assert DayNumber(Date(2029, 1, 1)) == 21550;
  }

  /** With a weekday in the expression the window is too short within a century too: after
      2 January 2024 the search does not find the Monday of 2029. */
  lemma {:induction false} MondayNewYearMissed()
    ensures IsExpr(MondayNewYear())
    ensures PlainSearch(MondayNewYear(), Midnight(DayNumber(Date(2024, 1, 2)))) == Err(NoNextTick)
  {
    forall t: Instant
      ensures !Candidate(MondayNewYear(), Midnight(DayNumber(Date(2024, 1, 2))), t)
    {
      NoNewYearCandidate(t);
    }
    PlainSearchFinds(MondayNewYear(), Midnight(DayNumber(Date(2024, 1, 2))));
  }
}
