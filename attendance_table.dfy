/**
 * `getAttendanceTableFor` (helper.py:171-221): the per-student calendar.
 * Each course's `(dayTime, attendance)` records are split into dates and
 * time slots, every date gets a row of `-` cells, and every record of a
 * course is written into every date row of that course, labelled with the
 * class the timetable schedules at that weekday and time. The records of
 * each course and the timetable are passed in; the queries are not modelled.
 */
module AttendanceTable {
  import opened Outcomes
  import opened Builtins
  import opened WeekDay

  /** The timetable DataFrame as `to_dict('tight')` gives it: index, columns and data. */
  datatype Timetable = Timetable(weekDays: seq<string>, times: seq<string>, classes: seq<seq<string>>)

  /** One row of `SELECT dayTime, <id> FROM <course>`. */
  datatype Record = Record(dayTime: string, attendance: string)

  /**
   * The dict `tableOfAttendance`: its keys in insertion order, and the row
   * stored under each key (`rows[i]` is the value of `order[i]`).
   */
  datatype Pivot = Pivot(order: seq<string>, rows: seq<seq<string>>)

  /** The DataFrame returned: the column names and the rows. */
  datatype Report = Report(header: seq<string>, rows: seq<seq<string>>)

  /** The filler of a cell no record has written. */
  const Blank: string := "-"

  // ---------------------------------------------------------------------
  // Session keys: `day-month-year-time` (helper.py:192-202)
  // ---------------------------------------------------------------------

  function Min(a: int, b: int): int
  {
    if a <= b then a else b
  }

  /** The date of a session key: its first three dash-separated fields, joined again by dashes. */
  function DateOf(dayTime: string): (r: string)
    ensures |Split(dayTime, '-')| <= 3 ==> r == dayTime
  {
    var fields := Split(dayTime, '-');
    JoinOfSplit(dayTime, '-');
    assert |fields| <= 3 ==> fields[..Min(3, |fields|)] == fields;
    Join(fields[..Min(3, |fields|)], "-")
  }

  /** The time of a session key: its last dash-separated field. */
  function TimeOf(dayTime: string): (r: string)
    ensures '-' !in r
  {
    var fields := Split(dayTime, '-');
    fields[|fields| - 1]
  }

  /** A three-character time gets a leading `0`; every other time is kept. */
  function PadTime(time: string): (r: string)
    ensures |r| != 3
    ensures |time| <= |r| <= |time| + 1
  {
    if |time| == 3 then "0" + time else time
  }

  /** A key built from four dash-free fields splits back into its date and its time. */
  lemma SessionKeyParts(day: string, month: string, year: string, time: string)
    requires '-' !in day && '-' !in month && '-' !in year && '-' !in time
    ensures DateOf(day + "-" + month + "-" + year + "-" + time) == day + "-" + month + "-" + year
    ensures TimeOf(day + "-" + month + "-" + year + "-" + time) == time
  {
    var parts := [day, month, year, time];
    JoinFour(day, month, year, time, "-");
    SplitOfJoin(parts, '-');
    assert parts[..3] == [day, month, year];
    JoinThree(day, month, year, "-");
  }

  /** A key with exactly four fields is its date, a dash and its time. */
  lemma SessionKeyRoundTrip(dayTime: string)
    requires |Split(dayTime, '-')| == 4
    ensures dayTime == DateOf(dayTime) + "-" + TimeOf(dayTime)
  {
    var f := Split(dayTime, '-');
    JoinOfSplit(dayTime, '-');
    assert f[..3] == [f[0], f[1], f[2]];
    assert f == [f[0], f[1], f[2], f[3]];
    JoinFour(f[0], f[1], f[2], f[3], "-");
    JoinThree(f[0], f[1], f[2], "-");
  }

  /** Padding gives four characters to a three-character time, keeps any other, and is idempotent. */
  lemma PadTimeNormalizes(time: string)
    ensures |time| == 3 ==> |PadTime(time)| == 4 && PadTime(time)[1..] == time && PadTime(time)[0] == '0'
    ensures |time| != 3 ==> PadTime(time) == time
    ensures PadTime(PadTime(time)) == PadTime(time)
  {
  }

  /** The three-character time of a session key such as `05-06-2023-900` comes out as `0900`. */
  lemma ThreeCharacterSessionTime(day: string, month: string, year: string, time: string)
    requires '-' !in day && '-' !in month && '-' !in year && '-' !in time
    requires |time| == 3
    ensures PadTime(TimeOf(day + "-" + month + "-" + year + "-" + time)) == "0" + time
    ensures |PadTime(TimeOf(day + "-" + month + "-" + year + "-" + time))| == 4
  {
    SessionKeyParts(day, month, year, time);
  }

  /**
   * The loop of helper.py:200-202 on the `times` list: each three-character
   * time is replaced, at the position `times.index(time)` finds, by its
   * padded form. That position is always the current one, because every
   * earlier three-character time has already been replaced.
   */
  method NormalizeTimes(times: array<string>)
    modifies times
    ensures forall k :: 0 <= k < times.Length ==> times[k] == PadTime(old(times[k]))
  {
    for i := 0 to times.Length
      invariant forall k :: 0 <= k < i ==> times[k] == PadTime(old(times[k])) && |times[k]| != 3
      invariant forall k :: i <= k < times.Length ==> times[k] == old(times[k])
    {
      var time := times[i];
      if |time| == 3 {
        var current := times[..];
        assert forall k :: 0 <= k < i ==> current[k] != time;
        IndexOfFirst(current, time, i);
        var index := IndexOf(current, time);
        times[index.value] := "0" + time;
      }
    }
  }

  // ---------------------------------------------------------------------
  // The records of one course (helper.py:189-202)
  // ---------------------------------------------------------------------

  /** `dates`: the date part of every record's session key. */
  function CourseDates(records: seq<Record>): (r: seq<string>)
    ensures |r| == |records|
    ensures forall i :: 0 <= i < |r| ==> r[i] == DateOf(records[i].dayTime)
  {
    seq(|records|, i requires 0 <= i < |records| => DateOf(records[i].dayTime))
  }

  /** `times` once the padding loop has run. */
  function CourseTimes(records: seq<Record>): (r: seq<string>)
    ensures |r| == |records|
    ensures forall i :: 0 <= i < |r| ==> r[i] == PadTime(TimeOf(records[i].dayTime))
  {
    seq(|records|, i requires 0 <= i < |records| => PadTime(TimeOf(records[i].dayTime)))
  }

  /** `attendances`: the student's mark in every record. */
  function CourseAttendances(records: seq<Record>): (r: seq<string>)
    ensures |r| == |records|
    ensures forall i :: 0 <= i < |r| ==> r[i] == records[i].attendance
  {
    seq(|records|, i requires 0 <= i < |records| => records[i].attendance)
  }

  /**
   * Record by record, the lists give back what was recorded: a four-field
   * key is its date, a dash and its time field; a time of three or four
   * characters comes out with four; and a padded time needs no more padding.
   */
  lemma CourseRecordParts(records: seq<Record>, i: nat)
    requires i < |records|
    ensures |Split(records[i].dayTime, '-')| == 4 ==>
      records[i].dayTime == CourseDates(records)[i] + "-" + TimeOf(records[i].dayTime)
    ensures 3 <= |TimeOf(records[i].dayTime)| <= 4 ==> |CourseTimes(records)[i]| == 4
    ensures PadTime(CourseTimes(records)[i]) == CourseTimes(records)[i]
    ensures CourseAttendances(records)[i] == records[i].attendance
  {
    if |Split(records[i].dayTime, '-')| == 4 {
      SessionKeyRoundTrip(records[i].dayTime);
    }
  }

  // ---------------------------------------------------------------------
  // The table being built (helper.py:182, 203-212)
  // ---------------------------------------------------------------------

  /** Every row has one cell per timetable time. */
  predicate Widths(rows: seq<seq<string>>, width: nat)
  {
    forall i :: 0 <= i < |rows| ==> |rows[i]| == width
  }

  /** One row per key, each as wide as the timetable. */
  predicate Valid(p: Pivot, width: nat)
  {
    |p.rows| == |p.order| && Widths(p.rows, width)
  }

  /** `['-'] * len(timeTableTimes)` */
  function BlankRow(width: nat): (r: seq<string>)
    ensures |r| == width
    ensures forall k :: 0 <= k < width ==> r[k] == Blank
  {
    seq(width, _ => Blank)
  }

  /** `order` with every element of `xs` not yet present appended, in the order of first occurrence. */
  function AppendUnseen(order: seq<string>, xs: seq<string>): seq<string>
    decreases |xs|
  {
    if |xs| == 0 then order
    else
      var before := AppendUnseen(order, xs[..|xs| - 1]);
      if xs[|xs| - 1] in before then before else before + [xs[|xs| - 1]]
  }

  /**
   * The loop of helper.py:203-205: a date seen for the first time gets a
   * blank row at the end of the dict; a date already present keeps its row.
   */
  function OpenRows(p: Pivot, dates: seq<string>, width: nat): (r: Pivot)
    requires Valid(p, width)
    ensures Valid(r, width)
    ensures r.order == AppendUnseen(p.order, dates)
    ensures forall i :: 0 <= i < |dates| ==> dates[i] in r.order
    ensures |p.rows| <= |r.rows|
    ensures forall i :: 0 <= i < |p.rows| ==> r.rows[i] == p.rows[i]
    ensures forall i :: |p.rows| <= i < |r.rows| ==> r.rows[i] == BlankRow(width)
    decreases |dates|
  {
    if |dates| == 0 then p
    else
      var before := OpenRows(p, dates[..|dates| - 1], width);
      var date := dates[|dates| - 1];
      if date in before.order then before
      else Pivot(before.order + [date], before.rows + [BlankRow(width)])
  }

  /** One assignment `tableOfAttendance[date][timeIndex] = ...`: the column and the text. */
  datatype Write = Write(column: nat, text: string)

  /**
   * The class the timetable schedules, on the weekday of `date`, in column
   * `column`: `timeTableClasses[weekDayIndex][timeIndex]`.
   */
  function SlotClass(tt: Timetable, date: string, column: nat): Option<string>
  {
    match GetWeekDay(date, '-')
    case Err(_) => None
    case Ok(day) =>
      match IndexOf(tt.weekDays, day)
      case None => None
      case Some(row) =>
        if row < |tt.classes| && column < |tt.classes[row]| then Some(tt.classes[row][column]) else None
  }

  /**
   * One pass of the body of helper.py:210-212 for a record with time `time`
   * and mark `attendance`, written into the row of `date`. Looking up the
   * weekday, then the time, then the class can each raise.
   */
  function CellWrite(tt: Timetable, date: string, time: string, attendance: string): (r: Result<Write>)
    ensures r.Ok? ==> r.value.column < |tt.times| && IndexOf(tt.times, time) == Some(r.value.column)
    ensures time !in tt.times ==> r.Err?
  {
    var day :- GetWeekDay(date, '-');
    var row :- (match IndexOf(tt.weekDays, day)
      case None => Err(WeekdayNotInTimetable(day))
      case Some(row) => Ok(row));
    var column :- (match IndexOf(tt.times, time)
      case None => Err(TimeNotInTimetable(time))
      case Some(column) => Ok(column));
    if row < |tt.classes| && column < |tt.classes[row]| then
      Ok(Write(column, tt.classes[row][column] + ": " + attendance))
    else Err(ClassCellMissing(row, column))
  }

  /**
   * A write succeeds exactly when the time is a timetable column and the
   * timetable has a class at the date's weekday in that column, and then
   * writes `"<class>: <attendance>"` into that column.
   */
  lemma CellWriteMeaning(tt: Timetable, date: string, time: string, attendance: string)
    ensures var r := CellWrite(tt, date, time, attendance);
      r.Ok? <==> IndexOf(tt.times, time).Some? && SlotClass(tt, date, IndexOf(tt.times, time).value).Some?
    ensures var r := CellWrite(tt, date, time, attendance);
      r.Ok? ==>
        IndexOf(tt.times, time) == Some(r.value.column)
        && r.value.text == SlotClass(tt, date, r.value.column).value + ": " + attendance
  {
  }

  /** `tableOfAttendance[date][w.column] = w.text` for the key stored at position `row`. */
  function WriteCell(rows: seq<seq<string>>, row: nat, w: Write, width: nat): (r: seq<seq<string>>)
    requires Widths(rows, width) && row < |rows| && w.column < width
    ensures Widths(r, width) && |r| == |rows|
  {
    rows[row := rows[row][w.column := w.text]]
  }

  /** Each write lands inside a row `width` cells wide. */
  predicate InColumns(writes: seq<Result<Write>>, width: nat)
  {
    forall j :: 0 <= j < |writes| && writes[j].Ok? ==> writes[j].value.column < width
  }

  /** The writes the inner loop of helper.py:209-212 attempts in the row of `date`, record by record. */
  function DateWrites(tt: Timetable, date: string, times: seq<string>, attendances: seq<string>)
    : (r: seq<Result<Write>>)
    requires |times| == |attendances|
    ensures |r| == |times| && InColumns(r, |tt.times|)
  {
    seq(|times|, j requires 0 <= j < |times| => CellWrite(tt, date, times[j], attendances[j]))
  }

  /** The writes of every date of a course: `CourseWrites(...)[i]` is what date `i`'s row receives. */
  function CourseWrites(tt: Timetable, dates: seq<string>, times: seq<string>, attendances: seq<string>)
    : (r: seq<seq<Result<Write>>>)
    requires |times| == |attendances|
    ensures |r| == |dates|
    ensures forall i :: 0 <= i < |r| ==> |r[i]| == |times| && InColumns(r[i], |tt.times|)
  {
    seq(|dates|, i requires 0 <= i < |dates| => DateWrites(tt, dates[i], times, attendances))
  }

  /**
   * The inner loop of helper.py:209-212 after its first `n` iterations: the
   * first `n` writes applied to the row stored at position `row`, stopping
   * at the first that raises.
   */
  function WriteRecords(rows: seq<seq<string>>, row: nat, writes: seq<Result<Write>>, width: nat, n: nat)
    : (r: Result<seq<seq<string>>>)
    requires Widths(rows, width) && row < |rows|
    requires n <= |writes| && InColumns(writes, width)
    ensures r.Ok? ==> Widths(r.value, width) && |r.value| == |rows|
    decreases n
  {
    if n == 0 then Ok(rows)
    else
      var before :- WriteRecords(rows, row, writes, width, n - 1);
      var w :- writes[n - 1];
      Ok(WriteCell(before, row, w, width))
  }

  /** Where `tableOfAttendance[date]` finds the row of each date among the keys `order`. */
  function Slots(order: seq<string>, dates: seq<string>): (r: seq<nat>)
    requires forall i :: 0 <= i < |dates| ==> dates[i] in order
    ensures |r| == |dates|
    ensures forall i :: 0 <= i < |r| ==> r[i] < |order| && order[r[i]] == dates[i]
  {
    seq(|dates|, i requires 0 <= i < |dates| => IndexOf(order, dates[i]).value)
  }

  /**
   * The outer loop of helper.py:207-212 after its first `m` dates: the
   * writes of date `i` go to the row at position `slots[i]`.
   */
  function WriteDates(rows: seq<seq<string>>, slots: seq<nat>, writes: seq<seq<Result<Write>>>, width: nat, m: nat)
    : (r: Result<seq<seq<string>>>)
    requires Widths(rows, width)
    requires |slots| == |writes| && forall i :: 0 <= i < |slots| ==> slots[i] < |rows|
    requires forall i :: 0 <= i < |writes| ==> InColumns(writes[i], width)
    requires m <= |writes|
    ensures r.Ok? ==> Widths(r.value, width) && |r.value| == |rows|
    decreases m
  {
    if m == 0 then Ok(rows)
    else
      var before :- WriteDates(rows, slots, writes, width, m - 1);
      WriteRecords(before, slots[m - 1], writes[m - 1], width, |writes[m - 1]|)
  }

  /**
   * The loop of helper.py:207-212 for one course, once every date of the
   * course has a row in `prepared`.
   */
  function FillRows(tt: Timetable, prepared: Pivot, records: seq<Record>): (r: Result<seq<seq<string>>>)
    requires Valid(prepared, |tt.times|)
    requires forall i :: 0 <= i < |records| ==> CourseDates(records)[i] in prepared.order
    ensures r.Ok? ==> Widths(r.value, |tt.times|) && |r.value| == |prepared.rows|
  {
    var dates := CourseDates(records);
    var writes := CourseWrites(tt, dates, CourseTimes(records), CourseAttendances(records));
    WriteDates(prepared.rows, Slots(prepared.order, dates), writes, |tt.times|, |dates|)
  }

  /** One iteration of the course loop of helper.py:188-212. */
  function PivotCourse(tt: Timetable, p: Pivot, records: seq<Record>): (r: Result<Pivot>)
    requires Valid(p, |tt.times|)
    ensures r.Ok? ==> Valid(r.value, |tt.times|) && r.value.order == AppendUnseen(p.order, CourseDates(records))
  {
    var prepared := OpenRows(p, CourseDates(records), |tt.times|);
    var rows :- FillRows(tt, prepared, records);
    Ok(Pivot(prepared.order, rows))
  }

  /** The dict after the courses `courses`, in order, starting from `{}`. */
  function PivotCourses(tt: Timetable, courses: seq<seq<Record>>): (r: Result<Pivot>)
    ensures r.Ok? ==> Valid(r.value, |tt.times|)
    decreases |courses|
  {
    if |courses| == 0 then Ok(Pivot([], []))
    else
      var before :- PivotCourses(tt, courses[..|courses| - 1]);
      PivotCourse(tt, before, courses[|courses| - 1])
  }

  /** The rows of the returned DataFrame: each key of the dict followed by its cells, under `Date` and the times. */
  function ReportOf(tt: Timetable, p: Pivot): (r: Report)
    requires Valid(p, |tt.times|)
    ensures r.header == ["Date"] + tt.times
    ensures |r.rows| == |p.order|
    ensures forall i :: 0 <= i < |r.rows| ==> |r.rows[i]| == |r.header| && r.rows[i][0] == p.order[i]
    ensures forall i, k :: 0 <= i < |r.rows| && 0 <= k < |tt.times| ==> r.rows[i][k + 1] == p.rows[i][k]
  {
    Report(["Date"] + tt.times, seq(|p.order|, i requires 0 <= i < |p.order| => [p.order[i]] + p.rows[i]))
  }

  /** The DataFrame `getAttendanceTableFor` returns, or the exception it raises. */
  function AttendanceReport(tt: Timetable, courses: seq<seq<Record>>): (r: Result<Report>)
    ensures r.Ok? ==> r.value.header == ["Date"] + tt.times
    ensures r.Ok? ==> forall i :: 0 <= i < |r.value.rows| ==> |r.value.rows[i]| == |tt.times| + 1
    ensures |courses| == 0 ==> r == Ok(Report(["Date"] + tt.times, []))
  {
    var p :- PivotCourses(tt, courses);
    Ok(ReportOf(tt, p))
  }

  // ---------------------------------------------------------------------
  // An exception ends the whole call
  // ---------------------------------------------------------------------

  lemma {:induction false} WriteRecordsStaysFailed(rows: seq<seq<string>>, row: nat, writes: seq<Result<Write>>,
                                                   width: nat, n: nat, m: nat)
    requires Widths(rows, width) && row < |rows|
    requires n <= m <= |writes| && InColumns(writes, width)
    requires WriteRecords(rows, row, writes, width, n).Err?
    ensures WriteRecords(rows, row, writes, width, m) == WriteRecords(rows, row, writes, width, n)
    decreases m
  {
    if n < m {
      WriteRecordsStaysFailed(rows, row, writes, width, n, m - 1);
    }
  }

  lemma {:induction false} WriteDatesStaysFailed(rows: seq<seq<string>>, slots: seq<nat>, writes: seq<seq<Result<Write>>>,
                                                 width: nat, n: nat, m: nat)
    requires Widths(rows, width)
    requires |slots| == |writes| && forall i :: 0 <= i < |slots| ==> slots[i] < |rows|
    requires forall i :: 0 <= i < |writes| ==> InColumns(writes[i], width)
    requires n <= m <= |writes|
    requires WriteDates(rows, slots, writes, width, n).Err?
    ensures WriteDates(rows, slots, writes, width, m) == WriteDates(rows, slots, writes, width, n)
    decreases m
  {
    if n < m {
      WriteDatesStaysFailed(rows, slots, writes, width, n, m - 1);
    }
  }

  lemma {:induction false} PivotCoursesStaysFailed(tt: Timetable, courses: seq<seq<Record>>, c: nat)
    requires c <= |courses|
    requires PivotCourses(tt, courses[..c]).Err?
    ensures PivotCourses(tt, courses) == PivotCourses(tt, courses[..c])
    decreases |courses|
  {
    if c < |courses| {
      var prefix := courses[..|courses| - 1];
      assert prefix[..c] == courses[..c];
      PivotCoursesStaysFailed(tt, prefix, c);
    } else {
      assert courses[..c] == courses;
    }
  }

  /** One more iteration of the inner loop: the next write applied, or its exception. */
  lemma WriteRecordsNext(rows: seq<seq<string>>, row: nat, writes: seq<Result<Write>>, width: nat,
                         j: nat, current: seq<seq<string>>)
    requires Widths(rows, width) && row < |rows|
    requires j < |writes| && InColumns(writes, width)
    requires WriteRecords(rows, row, writes, width, j) == Ok(current)
    ensures writes[j].Err? ==> WriteRecords(rows, row, writes, width, |writes|) == Err(writes[j].error)
    ensures writes[j].Ok? ==>
      WriteRecords(rows, row, writes, width, j + 1) == Ok(WriteCell(current, row, writes[j].value, width))
  {
    if writes[j].Err? {
      WriteRecordsStaysFailed(rows, row, writes, width, j + 1, |writes|);
    }
  }

  lemma WriteDatesFailsAt(rows: seq<seq<string>>, slots: seq<nat>, writes: seq<seq<Result<Write>>>,
                          width: nat, i: nat, start: seq<seq<string>>, e: Error)
    requires Widths(rows, width)
    requires |slots| == |writes| && forall k :: 0 <= k < |slots| ==> slots[k] < |rows|
    requires forall k :: 0 <= k < |writes| ==> InColumns(writes[k], width)
    requires i < |writes|
    requires WriteDates(rows, slots, writes, width, i) == Ok(start)
    requires Widths(start, width) && |start| == |rows|
    requires WriteRecords(start, slots[i], writes[i], width, |writes[i]|) == Err(e)
    ensures WriteDates(rows, slots, writes, width, |writes|) == Err(e)
  {
    assert WriteDates(rows, slots, writes, width, i + 1) == Err(e);
    WriteDatesStaysFailed(rows, slots, writes, width, i + 1, |writes|);
  }

  lemma PivotCoursesFailsAt(tt: Timetable, courses: seq<seq<Record>>, c: nat, before: Pivot, e: Error)
    requires c < |courses| && PivotCourses(tt, courses[..c]) == Ok(before)
    requires Valid(before, |tt.times|)
    requires PivotCourse(tt, before, courses[c]) == Err(e)
    ensures AttendanceReport(tt, courses) == Err(e)
  {
    assert courses[..c + 1][..c] == courses[..c];
    assert PivotCourses(tt, courses[..c + 1]) == Err(e);
    PivotCoursesStaysFailed(tt, courses, c + 1);
  }

  // ---------------------------------------------------------------------
  // getAttendanceTableFor
  // ---------------------------------------------------------------------

  /** The loop of helper.py:203-205 on the dict's keys `order` and rows `rows`. */
  method OpenDateRows(order: seq<string>, rows: seq<seq<string>>, dates: seq<string>, width: nat)
    returns (order': seq<string>, rows': seq<seq<string>>)
    requires Valid(Pivot(order, rows), width)
    ensures Pivot(order', rows') == OpenRows(Pivot(order, rows), dates, width)
  {
    order', rows' := order, rows;
    for i := 0 to |dates|
      invariant Pivot(order', rows') == OpenRows(Pivot(order, rows), dates[..i], width)
    {
      assert dates[..i + 1][..i] == dates[..i];
      if dates[i] !in order' {
        order' := order' + [dates[i]];
        rows' := rows' + [BlankRow(width)];
      }
    }
    assert dates[..|dates|] == dates;
  }

  /**
   * The lookups of helper.py:210-212 for one record: the weekday of `date`,
   * its row in the timetable, the column of `time`, and the class there.
   */
  method LookUpCell(tt: Timetable, date: string, time: string, attendance: string) returns (w: Result<Write>)
    ensures w == CellWrite(tt, date, time, attendance)
  {
    var day := GetWeekDay(date, '-');
    if day.Err? {
      return Err(day.error);
    }
    var weekDayIndex := IndexOf(tt.weekDays, day.value);
    if weekDayIndex.None? {
      return Err(WeekdayNotInTimetable(day.value));
    }
    var timeIndex := IndexOf(tt.times, time);
    if timeIndex.None? {
      return Err(TimeNotInTimetable(time));
    }
    var row, column := weekDayIndex.value, timeIndex.value;
    if !(row < |tt.classes| && column < |tt.classes[row]|) {
      return Err(ClassCellMissing(row, column));
    }
    w := Ok(Write(column, tt.classes[row][column] + ": " + attendance));
  }

  /**
   * The inner loop of helper.py:209-212: every record of the course written
   * into the row of `date`, stored at position `slot`.
   */
  method FillDateRow(tt: Timetable, rows: seq<seq<string>>, slot: nat, date: string,
                     times: seq<string>, attendances: seq<string>)
    returns (r: Result<seq<seq<string>>>)
    requires Widths(rows, |tt.times|) && slot < |rows|
    requires |times| == |attendances|
    ensures r == WriteRecords(rows, slot, DateWrites(tt, date, times, attendances), |tt.times|, |times|)
  {
    ghost var writes := DateWrites(tt, date, times, attendances);
    var current := rows;
    for j := 0 to |times|
      invariant WriteRecords(rows, slot, writes, |tt.times|, j) == Ok(current)
    {
      var w := LookUpCell(tt, date, times[j], attendances[j]);
      WriteRecordsNext(rows, slot, writes, |tt.times|, j, current);
      if w.Err? {
        return Err(w.error);
      }
      current := current[slot := current[slot][w.value.column := w.value.text]];
    }
    r := Ok(current);
  }

  /** The lists `dates`, `times` and `attendances` of helper.py:194-202, the times padded. */
  method SplitRecords(records: seq<Record>) returns (dates: seq<string>, times: seq<string>, attendances: seq<string>)
    ensures dates == CourseDates(records)
    ensures times == CourseTimes(records)
    ensures attendances == CourseAttendances(records)
  {
    dates := seq(|records|, i requires 0 <= i < |records| => DateOf(records[i].dayTime));
    var timeSlots := new string[|records|](i requires 0 <= i < |records| => TimeOf(records[i].dayTime));
    NormalizeTimes(timeSlots);
    times := timeSlots[..];
    attendances := seq(|records|, i requires 0 <= i < |records| => records[i].attendance);
  }

  /** The loop of helper.py:207-212 for one course on the dict's keys `order` and rows `rows`. */
  method FillCourseRows(tt: Timetable, order: seq<string>, rows: seq<seq<string>>, records: seq<Record>,
                        dates: seq<string>, times: seq<string>, attendances: seq<string>)
    returns (r: Result<seq<seq<string>>>)
    requires Valid(Pivot(order, rows), |tt.times|)
    requires dates == CourseDates(records) && times == CourseTimes(records) && attendances == CourseAttendances(records)
    requires forall i :: 0 <= i < |records| ==> dates[i] in order
    ensures r == FillRows(tt, Pivot(order, rows), records)
  {
    var width := |tt.times|;
    ghost var writes := CourseWrites(tt, dates, times, attendances);
    ghost var slots := Slots(order, dates);
    var current := rows;
    for i := 0 to |dates|
      invariant WriteDates(rows, slots, writes, width, i) == Ok(current)
    {
      var slot := IndexOf(order, dates[i]).value;
      assert slot == slots[i];
      var filled := FillDateRow(tt, current, slot, dates[i], times, attendances);
      if filled.Err? {
        WriteDatesFailsAt(rows, slots, writes, width, i, current, filled.error);
        return Err(filled.error);
      }
      current := filled.value;
    }
    r := Ok(current);
  }

  /**
   * One iteration of the course loop of helper.py:188-212 on the dict's keys
   * `order` and rows `rows`, given the records of the course.
   */
  method AddCourse(tt: Timetable, order: seq<string>, rows: seq<seq<string>>, records: seq<Record>)
    returns (r: Result<Pivot>)
    requires Valid(Pivot(order, rows), |tt.times|)
    ensures r == PivotCourse(tt, Pivot(order, rows), records)
  {
    var dates, times, attendances := SplitRecords(records);
    var order', rows' := OpenDateRows(order, rows, dates, |tt.times|);
    var filled := FillCourseRows(tt, order', rows', records, dates, times, attendances);
    if filled.Err? {
      return Err(filled.error);
    }
    r := Ok(Pivot(order', filled.value));
  }

  /**
   * `getAttendanceTableFor(id)` on the timetable `tt` and, for each course in
   * order, the records `SELECT dayTime, <id>` returns: the dict is built
   * course by course and turned into the rows of the report.
   */
  method GetAttendanceTableFor(tt: Timetable, courses: seq<seq<Record>>) returns (r: Result<Report>)
    ensures r == AttendanceReport(tt, courses)
  {
    var table := Pivot([], []);
    for c := 0 to |courses|
      invariant PivotCourses(tt, courses[..c]) == Ok(table)
    {
      assert courses[..c + 1][..c] == courses[..c];
      var added := AddCourse(tt, table.order, table.rows, courses[c]);
      if added.Err? {
        PivotCoursesFailsAt(tt, courses, c, table, added.error);
        return Err(added.error);
      }
      table := added.value;
    }
    assert courses[..|courses|] == courses;
    r := Ok(ReportOf(tt, table));
  }
}
