/** The proleptic Gregorian calendar and the UTC clock on which cron expressions
    are evaluated.

    A date is reached from 1970-01-01 by stepping one day at a time; `DayNumber` is
    the closed form, and the two are proved inverse to each other.  Instants are
    nanoseconds since the Unix epoch, so the seconds and the sub-second part that
    the search has to cut off are really there. */
module Calendar {

  datatype Date = Date(year: int, month: int, day: int)

  predicate IsLeapYear(year: int) {
    year % 4 == 0 && (year % 100 != 0 || year % 400 == 0)
  }

  function DaysInMonth(year: int, month: int): int {
    if month == 2 then (if IsLeapYear(year) then 29 else 28)
    else if month in {4, 6, 9, 11} then 30
    else 31
  }

  predicate ValidDate(d: Date) {
    && 1 <= d.month <= 12
    && 1 <= d.day <= DaysInMonth(d.year, d.month)
  }

  function DaysBeforeYear(year: int): int {
    var y := year - 1;
    365 * y + y / 4 - y / 100 + y / 400
  }

  function DaysBeforeMonth(year: int, month: int): int
    requires 1 <= month <= 13
  {
    if month == 1 then 0 else DaysBeforeMonth(year, month - 1) + DaysInMonth(year, month - 1)
  }

  /** Days from 1 January of year 1 to 1 January 1970. */
  const UNIX_EPOCH_DAY := 719162

  /** Days from 1970-01-01 to `d`. */
  function DayNumber(d: Date): int
    requires ValidDate(d)
  {
    DaysBeforeYear(d.year) + DaysBeforeMonth(d.year, d.month) + d.day - 1 - UNIX_EPOCH_DAY
  }

  function FirstOfNextMonth(d: Date): Date {
    if d.month == 12 then Date(d.year + 1, 1, 1) else Date(d.year, d.month + 1, 1)
  }

  function NextDate(d: Date): Date
    requires ValidDate(d)
  {
    if d.day < DaysInMonth(d.year, d.month) then d.(day := d.day + 1) else FirstOfNextMonth(d)
  }

  function PreviousDate(d: Date): Date
    requires ValidDate(d)
  {
    if 1 < d.day then d.(day := d.day - 1)
    else if d.month == 1 then Date(d.year - 1, 12, 31)
    else Date(d.year, d.month - 1, DaysInMonth(d.year, d.month - 1))
  }

  /** The date `n` days after (or, for a negative `n`, before) 1970-01-01. */
  function DateOf(n: int): (d: Date)
    ensures ValidDate(d)
    decreases if n < 0 then -n else n
  {
    if n == 0 then Date(1970, 1, 1)
    else if 0 < n then NextDate(DateOf(n - 1))
    else PreviousDate(DateOf(n + 1))
  }

  lemma {:induction false} MonthOffsets(year: int)
    ensures DaysBeforeMonth(year, 1) == 0
    ensures DaysBeforeMonth(year, 2) == 31
    ensures var k := if IsLeapYear(year) then 1 else 0;
      && DaysBeforeMonth(year, 3) == 59 + k && DaysBeforeMonth(year, 4) == 90 + k
      && DaysBeforeMonth(year, 5) == 120 + k && DaysBeforeMonth(year, 6) == 151 + k
      && DaysBeforeMonth(year, 7) == 181 + k && DaysBeforeMonth(year, 8) == 212 + k
      && DaysBeforeMonth(year, 9) == 243 + k && DaysBeforeMonth(year, 10) == 273 + k
      && DaysBeforeMonth(year, 11) == 304 + k && DaysBeforeMonth(year, 12) == 334 + k
      && DaysBeforeMonth(year, 13) == 365 + k
  {
  }

  lemma {:induction false} LeapDays(year: int)
    ensures year / 4 - (year - 1) / 4 == if year % 4 == 0 then 1 else 0
    ensures year / 100 - (year - 1) / 100 == if year % 100 == 0 then 1 else 0
    ensures year / 400 - (year - 1) / 400 == if year % 400 == 0 then 1 else 0
    ensures year % 400 == 0 ==> year % 100 == 0
    ensures year % 100 == 0 ==> year % 4 == 0
  {
  }

  lemma {:induction false} YearLength(year: int)
    ensures DaysBeforeYear(year + 1) - DaysBeforeYear(year) == if IsLeapYear(year) then 366 else 365
    ensures DaysBeforeMonth(year, 13) == if IsLeapYear(year) then 366 else 365
  {
    LeapDays(year);
    MonthOffsets(year);
  }

  lemma {:induction false} YearsInOrder(a: int, b: int)
    requires a <= b
    ensures DaysBeforeYear(a) + 365 * (b - a) <= DaysBeforeYear(b)
    ensures DaysBeforeYear(b) <= DaysBeforeYear(a) + 366 * (b - a)
    decreases b - a
  {
    if a < b {
      YearsInOrder(a, b - 1);
      YearLength(b - 1);
    }
  }

  lemma {:induction false} MonthsInOrder(year: int, a: int, b: int)
    requires 1 <= a <= b <= 13
    ensures DaysBeforeMonth(year, a) + 28 * (b - a) <= DaysBeforeMonth(year, b)
    decreases b - a
  {
    if a < b {
      MonthsInOrder(year, a, b - 1);
    }
  }

  lemma {:induction false} NextAddsOneDay(d: Date)
    requires ValidDate(d)
    ensures ValidDate(NextDate(d)) && DayNumber(NextDate(d)) == DayNumber(d) + 1
  {
    YearLength(d.year);
  }

  lemma {:induction false} PreviousTakesOneDay(d: Date)
    requires ValidDate(d)
    ensures ValidDate(PreviousDate(d)) && DayNumber(PreviousDate(d)) == DayNumber(d) - 1
  {
    YearLength(d.year - 1);
  }

  /** Stepping and the closed form agree on every day, before the epoch as well as after. */
  lemma {:induction false} DayNumberOfDate(n: int)
    ensures DayNumber(DateOf(n)) == n
    decreases if n < 0 then -n else n
  {
    if 0 < n {
      DayNumberOfDate(n - 1);
      NextAddsOneDay(DateOf(n - 1));
    } else if n < 0 {
      DayNumberOfDate(n + 1);
      PreviousTakesOneDay(DateOf(n + 1));
    } else {
      assert DayNumber(Date(1970, 1, 1)) == 0;
    }
  }

  lemma {:induction false} DayNumberInjective(a: Date, b: Date)
    requires ValidDate(a) && ValidDate(b)
    requires a.year < b.year || (a.year == b.year && a.month < b.month)
    ensures DayNumber(a) < DayNumber(b)
  {
    MonthsInOrder(a.year, a.month + 1, 13);
    MonthsInOrder(b.year, 1, b.month);
    if a.year < b.year {
      YearLength(a.year);
      YearsInOrder(a.year + 1, b.year);
    } else {
      MonthsInOrder(a.year, a.month + 1, b.month);
    }
  }

  /** Every valid date is the date of exactly its own day number. */
  lemma {:induction false} DateOfDayNumber(d: Date)
    requires ValidDate(d)
    ensures DateOf(DayNumber(d)) == d
  {
    var e := DateOf(DayNumber(d));
    DayNumberOfDate(DayNumber(d));
    if e.year < d.year || (e.year == d.year && e.month < d.month) {
      DayNumberInjective(e, d);
    } else if d.year < e.year || (d.year == e.year && d.month < e.month) {
      DayNumberInjective(d, e);
    }
  }

  lemma {:induction false} NextDay(n: int)
    ensures DateOf(n + 1) == NextDate(DateOf(n))
  {
  }

  /** The days from `n` to the end of its month, and the day after them. */
  lemma {:induction false} DaysWithinMonth(n: int, k: nat)
    requires DateOf(n).day + k <= DaysInMonth(DateOf(n).year, DateOf(n).month)
    ensures DateOf(n + k) == DateOf(n).(day := DateOf(n).day + k)
  {
    if 0 < k {
      DaysWithinMonth(n, k - 1);
      NextDay(n + k - 1);
    }
  }

  function DaysLeftInMonth(n: int): (left: nat) {
    DaysInMonth(DateOf(n).year, DateOf(n).month) - DateOf(n).day
  }

  lemma {:induction false} AfterLastDay(d: Date)
    requires ValidDate(d) && d.day == DaysInMonth(d.year, d.month)
    ensures NextDate(d) == FirstOfNextMonth(d)
  {
  }

  lemma {:induction false} LastDayOfMonth(n: int)
    ensures DateOf(n + DaysLeftInMonth(n) + 1) == FirstOfNextMonth(DateOf(n))
  {
    var last := n + DaysLeftInMonth(n);
    DaysWithinMonth(n, DaysLeftInMonth(n));
    NextDay(last);
    AfterLastDay(DateOf(last));
  }

  lemma {:induction false} FirstDayOfNextMonth(n: int)
    ensures ValidDate(FirstOfNextMonth(DateOf(n)))
    ensures DayNumber(FirstOfNextMonth(DateOf(n))) == n + DaysLeftInMonth(n) + 1
  {
    LastDayOfMonth(n);
    DayNumberOfDate(n + DaysLeftInMonth(n) + 1);
  }

  /** The day on which the month after that of day `n` begins. */
  function NextMonthDay(n: int): (m: int)
    ensures n < m && DateOf(m) == FirstOfNextMonth(DateOf(n))
  {
    FirstDayOfNextMonth(n);
    DateOfDayNumber(FirstOfNextMonth(DateOf(n)));
    DayNumber(FirstOfNextMonth(DateOf(n)))
  }

  /** Every day before it lies in the month of `n`. */
  lemma {:induction false} SameMonthUntil(n: int, m: int)
    requires n <= m < NextMonthDay(n)
    ensures DateOf(m).month == DateOf(n).month
  {
    FirstDayOfNextMonth(n);
    DaysWithinMonth(n, m - n);
  }

  /** Day of the week counted from Sunday = 0. */
  function DayOfWeek(n: int): int { (n + 4) % 7 }

  /** The day-of-week algorithm printed in Appendix B of RFC 3339. */
  function Rfc3339DayOfWeek(d: Date): int {
    var month := if d.month < 3 then d.month + 10 else d.month - 2;
    var year := if d.month < 3 then d.year - 1 else d.year;
    var century := year / 100;
    var y := year % 100;
    ((26 * month - 2) / 10 + d.day + y + y / 4 + century / 4 + 5 * century) % 7
  }

  lemma {:induction false} CenturySplit(year: int)
    ensures 365 * year + year / 4 - year / 100 + year / 400
         == 36524 * (year / 100) + 365 * (year % 100) + (year % 100) / 4 + (year / 100) / 4
  {
  }

  /** The month term of the RFC's formula is the month offset, up to whole weeks. */
  lemma {:induction false} MonthTerm(year: int, month: int)
    requires 1 <= month <= 12
    ensures 3 <= month ==>
      (DaysBeforeMonth(year, month) - (26 * (month - 2) - 2) / 10 - DaysBeforeMonth(year, 3) + 2) % 7 == 0
    ensures month < 3 ==>
      (DaysBeforeMonth(year, month) - (26 * (month + 10) - 2) / 10) % 7 == 0
  {
    MonthOffsets(year);
  }

  /** Whole weeks drop out: a century has 36524 = 7 * 5217 + 5 days, a year 364 + 1. */
  lemma {:induction false} WholeWeeks(c: int, r: int, leaps: int, offset: int, term: int, day: int)
    requires (offset - term) % 7 == 0
    ensures (36524 * c + 365 * r + leaps + offset + day - 719159) % 7 == (term + day + r + leaps + 5 * c) % 7
  {
  }

  lemma {:induction false} DaysBeforeYearByCentury(year: int)
    ensures DaysBeforeYear(year + 1)
         == 36524 * (year / 100) + 365 * (year % 100) + ((year % 100) / 4 + (year / 100) / 4)
  {
    CenturySplit(year);
  }

  /** The formula counts January and February as months 11 and 12 of the year before. */
  lemma {:induction false} WeekdayBeforeMarch(d: Date)
    requires ValidDate(d) && d.month < 3
    ensures DayOfWeek(DayNumber(d)) == Rfc3339DayOfWeek(d)
  {
    var y := d.year - 1;
    MonthTerm(d.year, d.month);
    DaysBeforeYearByCentury(y);
    WholeWeeks(y / 100, y % 100, (y % 100) / 4 + (y / 100) / 4, DaysBeforeMonth(d.year, d.month),
      (26 * (d.month + 10) - 2) / 10, d.day);
  }

  lemma {:induction false} WeekdayFromMarch(d: Date)
    requires ValidDate(d) && 3 <= d.month
    ensures DayOfWeek(DayNumber(d)) == Rfc3339DayOfWeek(d)
  {
    var y := d.year;
    var offset := DaysBeforeMonth(y, d.month);
    MonthTerm(y, d.month);
    DaysBeforeYearByCentury(y);
    YearLength(y);
    MonthOffsets(y);
    var shifted := offset + DaysBeforeYear(y) - DaysBeforeYear(y + 1);
    assert shifted - (offset - DaysBeforeMonth(y, 3)) == -306;
    WholeWeeks(y / 100, y % 100, (y % 100) / 4 + (y / 100) / 4, shifted, (26 * (d.month - 2) - 2) / 10, d.day);
  }

  lemma {:induction false} WeekdayIsRfc3339(n: int)
    ensures DayOfWeek(n) == Rfc3339DayOfWeek(DateOf(n))
  {
    DayNumberOfDate(n);
    if DateOf(n).month < 3 {
      WeekdayBeforeMarch(DateOf(n));
    } else {
      WeekdayFromMarch(DateOf(n));
    }
  }
}
