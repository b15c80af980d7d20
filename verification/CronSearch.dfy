/** `CronExpr::next_tick`: the search that skips whole months, days and hours is the
    plain minute-by-minute search.
    Models crates/cuartel-core/src/cron.rs, lines 169 to 241. */
module CronSearch {
  import opened Wrappers
  import opened Calendar
  import opened CronSyntax

  /** Nanoseconds since 1970-01-01T00:00:00Z. */
  type Instant = int

  const MINUTE: int := 60_000_000_000
  const HOUR: int := 60 * 60_000_000_000
  const DAY: int := 24 * 60 * 60_000_000_000

  /** The search window, `366 * 4` days. */
  const WINDOW: int := 1464 * 24 * 60 * 60_000_000_000

  function MinuteOf(t: Instant): nat { (t / MINUTE) % 60 }
  function HourOf(t: Instant): nat { (t / HOUR) % 24 }
  function DayIndex(t: Instant): int { t / DAY }
  function DayOfMonth(t: Instant): nat { DateOf(DayIndex(t)).day }
  function MonthOf(t: Instant): (m: nat)
    ensures 1 <= m <= 12
  {
    DateOf(DayIndex(t)).month
  }
  function WeekdayOf(t: Instant): nat { DayOfWeek(DayIndex(t)) }

  /** All five fields: day-of-month and day-of-week both have to match. */
  predicate Matches(e: CronExpr, t: Instant)
    requires e.HasBounds()
  {
    && e.minute.Matches(MinuteOf(t))
    && e.hour.Matches(HourOf(t))
    && e.dayOfMonth.Matches(DayOfMonth(t))
    && e.month.Matches(MonthOf(t))
    && e.dayOfWeek.Matches(WeekdayOf(t))
  }

  predicate DayMatches(e: CronExpr, t: Instant)
    requires e.HasBounds()
  {
    e.dayOfMonth.Matches(DayOfMonth(t)) && e.dayOfWeek.Matches(WeekdayOf(t))
  }

  // ---------- skipping ----------

  function Midnight(day: int): Instant { day * DAY }

  function AdvanceMonth(t: Instant): Instant { Midnight(NextMonthDay(DayIndex(t))) }

  function AdvanceDay(t: Instant): Instant { Midnight(DayIndex(t) + 1) }

  function AdvanceHour(t: Instant): Instant {
    var next := t + HOUR;
    next - next % HOUR
  }

  lemma {:induction false} MidnightBounds(t: Instant, day: int)
    ensures t < Midnight(day) <==> DayIndex(t) < day
    ensures DayIndex(Midnight(day)) == day
    ensures Midnight(day) % MINUTE == 0
  {
  }

  lemma {:induction false} DaysInOrder(t: Instant, u: Instant)
    requires t <= u
    ensures DayIndex(t) <= DayIndex(u)
  {
  }

  /** The first instant after `t` that lies in another month. */
  lemma {:induction false} AdvanceMonthIsFirstOtherMonth(t: Instant)
    ensures t < AdvanceMonth(t) && AdvanceMonth(t) % MINUTE == 0
    ensures MonthOf(AdvanceMonth(t)) != MonthOf(t)
    ensures forall u: Instant :: t <= u < AdvanceMonth(t) ==> MonthOf(u) == MonthOf(t)
  {
    var day := NextMonthDay(DayIndex(t));
    MidnightBounds(t, day);
    forall u: Instant | t <= u < AdvanceMonth(t)
      ensures MonthOf(u) == MonthOf(t)
    {
      MidnightBounds(u, day);
      DaysInOrder(t, u);
      SameMonthUntil(DayIndex(t), DayIndex(u));
    }
  }

  /** The first instant after `t` that lies in another day. */
  lemma {:induction false} AdvanceDayIsFirstOtherDay(t: Instant)
    ensures t < AdvanceDay(t) && AdvanceDay(t) % MINUTE == 0
    ensures DayIndex(AdvanceDay(t)) != DayIndex(t)
    ensures forall u: Instant :: t <= u < AdvanceDay(t) ==> DayIndex(u) == DayIndex(t)
  {
    MidnightBounds(t, DayIndex(t) + 1);
    forall u: Instant | t <= u < AdvanceDay(t)
      ensures DayIndex(u) == DayIndex(t)
    {
      MidnightBounds(u, DayIndex(t) + 1);
      MidnightBounds(u, DayIndex(t));
    }
  }

  /** The first instant after `t` that lies in another hour. */
  lemma {:induction false} AdvanceHourIsFirstOtherHour(t: Instant)
    ensures t < AdvanceHour(t) && AdvanceHour(t) % MINUTE == 0
    ensures HourOf(AdvanceHour(t)) != HourOf(t)
    ensures forall u: Instant :: t <= u < AdvanceHour(t) ==> HourOf(u) == HourOf(t)
  {
    var h := t / HOUR;
    assert AdvanceHour(t) == (h + 1) * HOUR;
    assert AdvanceHour(t) == 60 * (h + 1) * MINUTE;
    forall u: Instant | t <= u < AdvanceHour(t)
      ensures HourOf(u) == HourOf(t)
    {
      assert u / HOUR == h;
    }
  }

  // ---------- the plain search ----------

  /** The first matching whole minute among `minute`, `minute + 1`, .., `last`. */
  function MinuteByMinute(e: CronExpr, minute: int, last: int): Result<Instant, CronError>
    requires e.HasBounds()
    decreases last + 1 - minute
  {
    if last < minute then Err(NoNextTick)
    else if Matches(e, minute * MINUTE) then Ok(minute * MINUTE)
    else MinuteByMinute(e, minute + 1, last)
  }

  /** Try every whole minute after `after`, up to the end of the window. */
  function PlainSearch(e: CronExpr, after: Instant): Result<Instant, CronError>
    requires e.HasBounds()
  {
    MinuteByMinute(e, after / MINUTE + 1, (after + WINDOW) / MINUTE)
  }

  predicate WholeMinute(t: Instant) { t % MINUTE == 0 }

  /** `t` is a matching whole minute inside the window that follows `after`. */
  predicate Candidate(e: CronExpr, after: Instant, t: Instant)
    requires e.HasBounds()
  {
    WholeMinute(t) && after < t <= after + WINDOW && Matches(e, t)
  }

  lemma {:induction false} MinuteByMinuteIsLeast(e: CronExpr, minute: int, last: int)
    requires e.HasBounds()
    ensures match MinuteByMinute(e, minute, last)
      case Ok(t) =>
        && WholeMinute(t) && minute <= t / MINUTE <= last && Matches(e, t)
        && forall m :: minute <= m < t / MINUTE ==> !Matches(e, m * MINUTE)
      case Err(error) =>
        error == NoNextTick && forall m :: minute <= m <= last ==> !Matches(e, m * MINUTE)
    decreases last + 1 - minute
  {
    if minute <= last && !Matches(e, minute * MINUTE) {
      MinuteByMinuteIsLeast(e, minute + 1, last);
    }
  }

  lemma {:induction false} CandidateMinute(e: CronExpr, after: Instant, t: Instant)
    requires e.HasBounds() && WholeMinute(t)
    ensures t == t / MINUTE * MINUTE
    ensures after < t <= after + WINDOW <==> after / MINUTE + 1 <= t / MINUTE <= (after + WINDOW) / MINUTE
  {
  }

  lemma {:induction false} PlainSearchFinds(e: CronExpr, after: Instant)
    requires e.HasBounds()
    ensures match PlainSearch(e, after)
      case Ok(t) => Candidate(e, after, t) && forall u: Instant :: Candidate(e, after, u) ==> t <= u
      case Err(error) => error == NoNextTick && forall u: Instant :: !Candidate(e, after, u)
  {
    var first, last := after / MINUTE + 1, (after + WINDOW) / MINUTE;
    var r := PlainSearch(e, after);
    MinuteByMinuteIsLeast(e, first, last);
    if r.Ok? {
      CandidateMinute(e, after, r.value);
    }
    forall u: Instant | Candidate(e, after, u)
      ensures r.Ok? && r.value <= u
    {
      CandidateMinute(e, after, u);
    }
  }

  ghost predicate IsLeastCandidate(e: CronExpr, after: Instant, t: Instant)
    requires e.HasBounds()
  {
    Candidate(e, after, t) && forall u: Instant :: Candidate(e, after, u) ==> t <= u
  }

  /** What `next_tick` promises: the least candidate, or an error exactly when there is none. */
  lemma {:induction false} PlainSearchIsLeast(e: CronExpr, after: Instant)
    requires e.HasBounds()
    ensures forall t :: PlainSearch(e, after) == Ok(t) <==> IsLeastCandidate(e, after, t)
    ensures PlainSearch(e, after) == Err(NoNextTick) <==> !exists t: Instant :: Candidate(e, after, t)
  {
    PlainSearchFinds(e, after);
  }

  /** Minutes that do not match can be jumped over. */
  lemma {:induction false} SkipMinutes(e: CronExpr, minute: int, next: int, last: int)
    requires e.HasBounds() && minute <= next
    requires forall m :: minute <= m < next ==> !Matches(e, m * MINUTE)
    ensures MinuteByMinute(e, minute, last) == MinuteByMinute(e, next, last)
    decreases next - minute
  {
    if minute < next {
      SkipMinutes(e, minute + 1, next, last);
    }
  }

  // ---------- the skipping search ----------

  /** Where the loop goes from a candidate that does not match. */
  function Skip(e: CronExpr, t: Instant): Instant
    requires e.HasBounds()
  {
    if !e.month.Matches(MonthOf(t)) then AdvanceMonth(t)
    else if !DayMatches(e, t) then AdvanceDay(t)
    else if !e.hour.Matches(HourOf(t)) then AdvanceHour(t)
    else t + MINUTE
  }

  /** A skip moves forward to a whole minute and passes no matching minute. */
  lemma {:induction false} SkipPassesNoMatch(e: CronExpr, t: Instant)
    requires e.HasBounds() && WholeMinute(t) && !Matches(e, t)
    ensures t < Skip(e, t) && WholeMinute(Skip(e, t))
    ensures forall u: Instant :: t <= u < Skip(e, t) && WholeMinute(u) ==> !Matches(e, u)
  {
    if !e.month.Matches(MonthOf(t)) {
      AdvanceMonthIsFirstOtherMonth(t);
    } else if !DayMatches(e, t) {
      AdvanceDayIsFirstOtherDay(t);
    } else if !e.hour.Matches(HourOf(t)) {
      AdvanceHourIsFirstOtherHour(t);
    } else {
      assert forall u: Instant :: t <= u < t + MINUTE && WholeMinute(u) ==> u == t;
    }
  }

  lemma {:induction false} MinutesBetween(t: Instant, next: Instant, m: int)
    requires WholeMinute(t) && WholeMinute(next) && t / MINUTE <= m < next / MINUTE
    ensures WholeMinute(m * MINUTE) && t <= m * MINUTE < next
  {
  }

  lemma {:induction false} JumpTo(e: CronExpr, t: Instant, next: Instant, last: int)
    requires e.HasBounds() && WholeMinute(t) && WholeMinute(next) && t < next
    requires forall u: Instant :: t <= u < next && WholeMinute(u) ==> !Matches(e, u)
    ensures MinuteByMinute(e, t / MINUTE, last) == MinuteByMinute(e, next / MINUTE, last)
  {
    forall m | t / MINUTE <= m < next / MINUTE
      ensures !Matches(e, m * MINUTE)
    {
      MinutesBetween(t, next, m);
    }
    SkipMinutes(e, t / MINUTE, next / MINUTE, last);
  }

  /** The loop of the source; it returns what the plain search returns. */
  method NextTick(e: CronExpr, after: Instant) returns (r: Result<Instant, CronError>)
    requires e.HasBounds()
    ensures r == PlainSearch(e, after)
  {
    var candidate := after + MINUTE;
    candidate := candidate - candidate % MINUTE;
    var limit := after + WINDOW;
    ghost var last := limit / MINUTE;
    while candidate <= limit
      invariant WholeMinute(candidate)
      invariant MinuteByMinute(e, candidate / MINUTE, last) == PlainSearch(e, after)
      decreases limit - candidate
    {
      if Matches(e, candidate) {
        assert candidate / MINUTE <= last;
        return Ok(candidate);
      }
      SkipPassesNoMatch(e, candidate);
      JumpTo(e, candidate, Skip(e, candidate), last);
      if !e.month.Matches(MonthOf(candidate)) {
        candidate := AdvanceMonth(candidate);
        continue;
      }
      if !e.dayOfMonth.Matches(DayOfMonth(candidate)) || !e.dayOfWeek.Matches(WeekdayOf(candidate)) {
        candidate := AdvanceDay(candidate);
        continue;
      }
      if !e.hour.Matches(HourOf(candidate)) {
        candidate := AdvanceHour(candidate);
        continue;
      }
      candidate := candidate + MINUTE;
    }
    assert last < candidate / MINUTE;
    return Err(NoNextTick);
  }
}
