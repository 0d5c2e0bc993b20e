/** `getWeekDay` (helper.py:156-168): the weekday name of a `day-month-year` string. */
module WeekDay {
  import opened Outcomes
  import opened Builtins
  import opened Calendar

  /** `int(field)`, raising ValueError on a field that is not an integer. */
  function ToInt(field: string): (r: Result<int>)
    ensures |field| > 0 && AllDigits(field) ==> r == Ok(DigitsValue(field))
    ensures field == [] ==> r == Err(NotAnInteger(field))
    ensures r.Ok? <==> ParseInt(field).Some?
    ensures r.Ok? ==> r.value == ParseInt(field).value
    ensures r.Err? ==> r.error == NotAnInteger(field)
  {
    match ParseInt(field)
    case Some(n) => Ok(n)
    case None => Err(NotAnInteger(field))
  }

  /**
   * The weekday name of a date written as day, month and year between
   * separators: the text must split into exactly three fields, which are
   * converted to integers year first, and the name is the one
   * `calendar.weekday` gives for that year, month and day.
   */
  function GetWeekDay(date: string, sep: char): (r: Result<string>)
    ensures r.Ok? ==> r.value in DayNames
    ensures |Split(date, sep)| != 3 <==> r == Err(WrongFieldCount(|Split(date, sep)|))
  {
    var fields := Split(date, sep);
    if |fields| != 3 then Err(WrongFieldCount(|fields|))
    else
      var year :- ToInt(fields[2]);
      var month :- ToInt(fields[1]);
      var day :- ToInt(fields[0]);
      var dt := Date(WeekdayYear(year), month, day);
      if ValidDate(dt) then Ok(DayNames[Weekday(dt)])
      else Err(InvalidDate(dt.year, month, day))
  }

  /** The (year, month, day) a date string names, when it has three integer fields. */
  function DateFields(date: string, sep: char): Option<Date>
  {
    var fields := Split(date, sep);
    if |fields| == 3
      && ParseInt(fields[0]).Some? && ParseInt(fields[1]).Some? && ParseInt(fields[2]).Some?
    then Some(Date(ParseInt(fields[2]).value, ParseInt(fields[1]).value, ParseInt(fields[0]).value))
    else None
  }

  /**
   * `getWeekDay` succeeds exactly on strings naming a valid Gregorian date,
   * for every integer year, and then answers that date's proleptic weekday.
   */
  lemma GetWeekDayIsGregorian(date: string, sep: char)
    ensures GetWeekDay(date, sep).Ok? <==>
      DateFields(date, sep).Some? && ValidDate(DateFields(date, sep).value)
    ensures GetWeekDay(date, sep).Ok? ==>
      GetWeekDay(date, sep).value == DayNames[Weekday(DateFields(date, sep).value)]
  {
    var fields := Split(date, sep);
    if |fields| == 3
      && ParseInt(fields[0]).Some? && ParseInt(fields[1]).Some? && ParseInt(fields[2]).Some?
    {
      WeekdayYearKeepsWeekday(DateFields(date, sep).value);
    }
  }

  /** The `day-month-year` text of a date with a non-negative year. */
  function FormatDate(dt: Date): string
    requires ValidDate(dt) && dt.year >= 0
  {
    Join([Show(dt.day), Show(dt.month), Show(dt.year)], "-")
  }

  /** Reading back a formatted date gives its weekday name. */
  lemma GetWeekDayOfFormatted(dt: Date)
    requires ValidDate(dt) && dt.year >= 0
    ensures GetWeekDay(FormatDate(dt), '-') == Ok(DayNames[Weekday(dt)])
  {
    var parts := [Show(dt.day), Show(dt.month), Show(dt.year)];
    ShowHasNoSign(dt.day, '-');
    ShowHasNoSign(dt.month, '-');
    ShowHasNoSign(dt.year, '-');
    SplitOfJoin(parts, '-');
    ParseIntOfShow(dt.day);
    ParseIntOfShow(dt.month);
    ParseIntOfShow(dt.year);
    GetWeekDayIsGregorian(FormatDate(dt), '-');
  }

  /** Adding whole weeks to a date leaves `getWeekDay`'s answer unchanged. */
  lemma GetWeekDayWeeksLater(dt: Date, weeks: nat)
    requires ValidDate(dt) && dt.year >= 0
    ensures GetWeekDay(FormatDate(AddDays(dt, 7 * weeks)), '-') == GetWeekDay(FormatDate(dt), '-')
  {
    GetWeekDayOfFormatted(dt);
    GetWeekDayOfFormatted(AddDays(dt, 7 * weeks));
    WeeksLater(dt, weeks);
  }

  /** The date in `markAttendance`'s docstring (helper.py:74) fell on a Thursday. */
  lemma DocstringDateIsThursday()
    ensures GetWeekDay("15-12-2022", '-') == Ok("Thursday")
  {
    var dt := Date(2022, 12, 15);
    DocstringDateFields();
    DocstringDateWeekday();
    GetWeekDayOfFormatted(dt);
  }

  lemma DocstringDateFields()
    ensures ValidDate(Date(2022, 12, 15))
    ensures FormatDate(Date(2022, 12, 15)) == "15-12-2022"
  {
    JoinThree(Show(15), Show(12), Show(2022), "-");
    assert Show(15) == "15";
    assert Show(12) == "12";
    assert Show(2022) == "2022";
  }

  lemma DocstringDateWeekday()
    ensures Weekday(Date(2022, 12, 15)) == 3
  {
    assert DaysBeforeYear(2022) == 738155;
    assert DaysBeforeMonth(2022, 12) == 334;
  }

  /** A day or month written with two digits, as in the key `05-06-2023-900`. */
  function TwoDigits(n: nat): (s: string)
    ensures |s| >= 2 && AllDigits(s)
  {
    if n < 10 then "0" + Show(n) else Show(n)
  }

  /** The zero-padded `dd-mm-yyyy` text of a date with a non-negative year. */
  function FormatPaddedDate(dt: Date): string
    requires ValidDate(dt) && dt.year >= 0
  {
    Join([TwoDigits(dt.day), TwoDigits(dt.month), Show(dt.year)], "-")
  }

  /** Leading zeros in the day and the month do not change the weekday read back. */
  lemma GetWeekDayOfPadded(dt: Date)
    requires ValidDate(dt) && dt.year >= 0
    ensures DateFields(FormatPaddedDate(dt), '-') == Some(dt)
    ensures GetWeekDay(FormatPaddedDate(dt), '-') == Ok(DayNames[Weekday(dt)])
  {
    var parts := [TwoDigits(dt.day), TwoDigits(dt.month), Show(dt.year)];
    ShowHasNoSign(dt.day, '-');
    ShowHasNoSign(dt.month, '-');
    ShowHasNoSign(dt.year, '-');
    SplitOfJoin(parts, '-');
    ParseIntOfShow(dt.day);
    ParseIntOfShow(dt.month);
    ParseIntOfShow(dt.year);
    if dt.day < 10 {
      ParseIntLeadingZero(Show(dt.day));
    }
    if dt.month < 10 {
      ParseIntLeadingZero(Show(dt.month));
    }
    GetWeekDayIsGregorian(FormatPaddedDate(dt), '-');
  }
}
