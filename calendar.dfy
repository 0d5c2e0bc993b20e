/**
 * The proleptic Gregorian calendar as Python's `datetime` and `calendar`
 * modules count it: day 1 is Monday 1 January of year 1, a date's ordinal
 * is the number of days up to and including it, and the weekday is the
 * ordinal's offset in a Monday-first week.
 */
module Calendar {

  datatype Date = Date(year: int, month: int, day: int)

  predicate IsLeap(y: int)
  {
    y % 4 == 0 && (y % 100 != 0 || y % 400 == 0)
  }

  function YearLength(y: int): int
  {
    if IsLeap(y) then 366 else 365
  }

  function DaysInMonth(y: int, m: int): (n: int)
    requires 1 <= m <= 12
    ensures 28 <= n <= 31
    ensures m == 2 <==> n < 30
  {
    if m == 2 then (if IsLeap(y) then 29 else 28)
    else if m == 4 || m == 6 || m == 9 || m == 11 then 30
    else 31
  }

  /** Days in the months of year `y` that come before month `m` (m == 13: the whole year). */
  function DaysBeforeMonth(y: int, m: int): int
    requires 1 <= m <= 13
    decreases m
  {
    if m == 1 then 0 else DaysBeforeMonth(y, m - 1) + DaysInMonth(y, m - 1)
  }

  /** Days in the years before year `y`, in the closed form `datetime` uses. */
  function DaysBeforeYear(y: int): int
  {
    var p := y - 1;
    p * 365 + p / 4 - p / 100 + p / 400
  }

  predicate ValidDate(dt: Date)
  {
    1 <= dt.month <= 12 && 1 <= dt.day <= DaysInMonth(dt.year, dt.month)
  }

  /** `date.toordinal()`: 1 for 1 January of year 1. */
  function Ordinal(dt: Date): int
    requires ValidDate(dt)
  {
    DaysBeforeYear(dt.year) + DaysBeforeMonth(dt.year, dt.month) + dt.day
  }

  /** `date.weekday()`: 0 for Monday up to 6 for Sunday. */
  function Weekday(dt: Date): (w: int)
    requires ValidDate(dt)
    ensures 0 <= w < 7
  {
    WeekdayOfOrdinal(Ordinal(dt))
  }

  /** Day 1 is a Monday. */
  function WeekdayOfOrdinal(o: int): (w: int)
    ensures 0 <= w < 7
  {
    (o + 6) % 7
  }

  lemma WeekdayOfNextOrdinal(o: int)
    ensures WeekdayOfOrdinal(o + 1) == (WeekdayOfOrdinal(o) + 1) % 7
  {
  }

  lemma WeekdayOfLaterOrdinal(o: int, weeks: int)
    ensures WeekdayOfOrdinal(o + 7 * weeks) == WeekdayOfOrdinal(o)
  {
  }

  /** `calendar.day_name` in the default (C) locale. */
  const DayNames: seq<string> :=
    ["Monday", "Tuesday", "Wednesday", "Thursday", "Friday", "Saturday", "Sunday"]

  /** The day after `dt` in the Gregorian calendar. */
  function NextDay(dt: Date): (r: Date)
    requires ValidDate(dt)
    ensures ValidDate(r)
    ensures r.year >= dt.year
  {
    if dt.day < DaysInMonth(dt.year, dt.month) then Date(dt.year, dt.month, dt.day + 1)
    else if dt.month < 12 then Date(dt.year, dt.month + 1, 1)
    else Date(dt.year + 1, 1, 1)
  }

  /** The date `n` days after `dt`. */
  function AddDays(dt: Date, n: nat): (r: Date)
    requires ValidDate(dt)
    ensures ValidDate(r)
    ensures r.year >= dt.year
    decreases n
  {
    if n == 0 then dt else NextDay(AddDays(dt, n - 1))
  }

  // ---------------------------------------------------------------------
  // The closed form counts days one year and one month at a time
  // ---------------------------------------------------------------------

  lemma MonthsFillTheYear(y: int)
    ensures DaysBeforeMonth(y, 13) == YearLength(y)
  {
    assert DaysBeforeMonth(y, 3) == 31 + DaysInMonth(y, 2);
    assert DaysBeforeMonth(y, 13) == DaysBeforeMonth(y, 3) + 306;
  }

  lemma QuotientStep(p: int)
    ensures (p + 1) / 4 == p / 4 + (if (p + 1) % 4 == 0 then 1 else 0)
    ensures (p + 1) / 100 == p / 100 + (if (p + 1) % 100 == 0 then 1 else 0)
    ensures (p + 1) / 400 == p / 400 + (if (p + 1) % 400 == 0 then 1 else 0)
  {
  }

  /** A multiple of 400 is a multiple of 100, and a multiple of 100 a multiple of 4. */
  lemma DivisorChain(y: int)
    ensures y % 400 == 0 ==> y % 100 == 0
    ensures y % 100 == 0 ==> y % 4 == 0
  {
    if y % 400 == 0 {
      var k := 4 * (y / 400) - y / 100;
      assert 100 * k == y % 100;
    }
    if y % 100 == 0 {
      var k := 25 * (y / 100) - y / 4;
      assert 4 * k == y % 4;
    }
  }

  lemma DaysBeforeNextYear(y: int)
    ensures DaysBeforeYear(y + 1) == DaysBeforeYear(y) + YearLength(y)
  {
    QuotientStep(y - 1);
    DivisorChain(y);
  }

  /** Ordinals of consecutive days differ by one. */
  lemma NextDayOrdinal(dt: Date)
    requires ValidDate(dt)
    ensures Ordinal(NextDay(dt)) == Ordinal(dt) + 1
  {
    if dt.day == DaysInMonth(dt.year, dt.month) && dt.month == 12 {
      MonthsFillTheYear(dt.year);
      DaysBeforeNextYear(dt.year);
    }
  }

  /** 1 January of year 1 is a Monday. */
  lemma FirstDayIsMonday()
    ensures DayNames[Weekday(Date(1, 1, 1))] == "Monday"
  {
  }

  /** Each day's weekday is the one after the previous day's. */
  lemma NextDayWeekday(dt: Date)
    requires ValidDate(dt)
    ensures Weekday(NextDay(dt)) == (Weekday(dt) + 1) % 7
  {
    NextDayOrdinal(dt);
    WeekdayOfNextOrdinal(Ordinal(dt));
  }

  /** `n` days later the ordinal has grown by `n`. */
  lemma {:induction false} AddDaysOrdinal(dt: Date, n: nat)
    requires ValidDate(dt)
    ensures Ordinal(AddDays(dt, n)) == Ordinal(dt) + n
    decreases n
  {
    if n > 0 {
      AddDaysOrdinal(dt, n - 1);
      NextDayOrdinal(AddDays(dt, n - 1));
    }
  }

  /** Whole weeks later it is the same weekday. */
  lemma WeeksLater(dt: Date, weeks: nat)
    requires ValidDate(dt)
    ensures Weekday(AddDays(dt, 7 * weeks)) == Weekday(dt)
  {
    AddDaysOrdinal(dt, 7 * weeks);
    WeekdayOfLaterOrdinal(Ordinal(dt), weeks);
  }

  // ---------------------------------------------------------------------
  // calendar.weekday maps years outside datetime's range into 2000..2399
  // ---------------------------------------------------------------------

  const MinYear: int := 1
  const MaxYear: int := 9999

  /** The year `calendar.weekday` hands to `datetime.date`. */
  function WeekdayYear(y: int): (r: int)
    ensures MinYear <= r <= MaxYear
    ensures (r - y) % 400 == 0
  {
    if MinYear <= y <= MaxYear then y else 2000 + y % 400
  }

  lemma DaysBeforeYearPeriod(y: int, k: int)
    ensures DaysBeforeYear(y + 400 * k) == DaysBeforeYear(y) + 146097 * k
  {
    var p := y - 1;
    assert (p + 400 * k) / 4 == p / 4 + 100 * k;
    assert (p + 400 * k) / 100 == p / 100 + 4 * k;
    assert (p + 400 * k) / 400 == p / 400 + k;
  }

  lemma {:induction false} DaysBeforeMonthByLeap(y1: int, y2: int, m: int)
    requires 1 <= m <= 13
    requires IsLeap(y1) == IsLeap(y2)
    ensures DaysBeforeMonth(y1, m) == DaysBeforeMonth(y2, m)
    decreases m
  {
    if m > 1 {
      DaysBeforeMonthByLeap(y1, y2, m - 1);
    }
  }

  /**
   * Moving a date by whole 400-year cycles keeps it valid and keeps its
   * weekday, so the year `calendar.weekday` substitutes gives the
   * proleptic Gregorian weekday of the year it was given.
   */
  lemma WeekdayYearKeepsWeekday(dt: Date)
    ensures ValidDate(Date(WeekdayYear(dt.year), dt.month, dt.day)) <==> ValidDate(dt)
    ensures ValidDate(dt) ==> Weekday(Date(WeekdayYear(dt.year), dt.month, dt.day)) == Weekday(dt)
  {
    if ValidDate(dt) {
      SameCycleSameWeekday(dt);
    }
  }

  lemma SameCycleSameWeekday(dt: Date)
    requires ValidDate(dt)
    ensures ValidDate(Date(WeekdayYear(dt.year), dt.month, dt.day))
    ensures Weekday(Date(WeekdayYear(dt.year), dt.month, dt.day)) == Weekday(dt)
  {
    var y := dt.year;
    var y' := WeekdayYear(y);
    var k := WholeCycles(y' - y);
    var dt' := Date(y', dt.month, dt.day);
    LeapPeriod(y, k);
    assert DaysInMonth(y', dt.month) == DaysInMonth(y, dt.month);
    DaysBeforeMonthByLeap(y', y, dt.month);
    DaysBeforeYearPeriod(y, k);
    SameOrdinalShift(dt, dt', k);
  }

  lemma SameOrdinalShift(dt: Date, dt': Date, k: int)
    requires ValidDate(dt) && ValidDate(dt')
    requires dt'.day == dt.day
    requires DaysBeforeYear(dt'.year) == DaysBeforeYear(dt.year) + 146097 * k
    requires DaysBeforeMonth(dt'.year, dt'.month) == DaysBeforeMonth(dt.year, dt.month)
    ensures Weekday(dt') == Weekday(dt)
  {
    assert Ordinal(dt') == Ordinal(dt) + 7 * (20871 * k);
    WeekdayOfLaterOrdinal(Ordinal(dt), 20871 * k);
  }

  lemma WholeCycles(d: int) returns (k: int)
    requires d % 400 == 0
    ensures d == 400 * k
  {
    k := d / 400;
  }

  lemma LeapPeriod(y: int, k: int)
    ensures IsLeap(y + 400 * k) == IsLeap(y)
  {
    ShiftByFours(y, 100 * k);
    ShiftByHundreds(y, 4 * k);
    ShiftByFourHundreds(y, k);
  }

  lemma ShiftByFours(y: int, j: int)
    ensures (y + 4 * j) % 4 == y % 4
  {
  }

  lemma ShiftByHundreds(y: int, j: int)
    ensures (y + 100 * j) % 100 == y % 100
  {
  }

  lemma ShiftByFourHundreds(y: int, j: int)
    ensures (y + 400 * j) % 400 == y % 400
  {
  }
}
