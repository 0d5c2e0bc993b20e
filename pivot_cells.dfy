/**
 * What `getAttendanceTableFor` (helper.py:171-221) leaves in each cell of
 * the dict it builds, and when it raises: the folds of `AttendanceTable`
 * characterised level by level, from one row up to all courses.
 */
module PivotCells {
  import opened Outcomes
  import opened Builtins
  import opened AttendanceTable
  import opened PivotOrder
  import opened WeekDay

  /** The text in `o`, or `fallback` when there is none. */
  function Or(o: Option<string>, fallback: string): string
  {
    if o.Some? then o.value else fallback
  }

  /** The text of the last of the first `n` writes aimed at column `c`, if one is. */
  function LastWrite(writes: seq<Result<Write>>, c: nat, n: nat): Option<string>
    requires n <= |writes|
    decreases n
  {
    if n == 0 then None
    else if writes[n - 1].Ok? && writes[n - 1].value.column == c then Some(writes[n - 1].value.text)
    else LastWrite(writes, c, n - 1)
  }

  /** None of the first `n` writes raises. */
  predicate AllOk(writes: seq<Result<Write>>, n: nat)
    requires n <= |writes|
  {
    forall j :: 0 <= j < n ==> writes[j].Ok?
  }

  // ---------------------------------------------------------------------
  // One date row (the inner loop of helper.py:209-212)
  // ---------------------------------------------------------------------

  /**
   * `out` is `rows` with the first `n` writes applied to the row at position
   * `row`: every other row is unchanged, and each cell of that row holds the
   * last text written to its column, or what it held before.
   */
  predicate RowFilled(rows: seq<seq<string>>, row: nat, writes: seq<Result<Write>>, width: nat, n: nat,
                      out: seq<seq<string>>)
    requires Widths(rows, width) && row < |rows| && n <= |writes|
  {
    |out| == |rows| && Widths(out, width)
    && (forall r :: 0 <= r < |rows| && r != row ==> out[r] == rows[r])
    && (forall c :: 0 <= c < width ==> out[row][c] == Or(LastWrite(writes, c, n), rows[row][c]))
  }

  /**
   * The inner loop succeeds exactly when none of its writes raises; it then
   * leaves every other row alone, and each cell of its row holds the last
   * text written to that column, or what it held before.
   */
  lemma {:induction false} WriteRecordsCells(rows: seq<seq<string>>, row: nat, writes: seq<Result<Write>>,
                                             width: nat, n: nat)
    requires Widths(rows, width) && row < |rows|
    requires n <= |writes| && InColumns(writes, width)
    ensures WriteRecords(rows, row, writes, width, n).Ok? <==> AllOk(writes, n)
    ensures WriteRecords(rows, row, writes, width, n).Ok? ==>
      RowFilled(rows, row, writes, width, n, WriteRecords(rows, row, writes, width, n).value)
    decreases n
  {
    if n > 0 {
      WriteRecordsCells(rows, row, writes, width, n - 1);
    }
  }

  // ---------------------------------------------------------------------
  // All dates of one course (the loop of helper.py:207-212)
  // ---------------------------------------------------------------------

  /** Each date receives the writes of the row it maps to: `rowWrites[r]` for every date stored at `r`. */
  predicate WritesByRow(slots: seq<nat>, writes: seq<seq<Result<Write>>>, rowWrites: seq<seq<Result<Write>>>)
    requires |slots| == |writes|
  {
    forall i :: 0 <= i < |slots| ==> slots[i] < |rowWrites| && writes[i] == rowWrites[slots[i]]
  }

  /** None of the writes of the first `m` dates raises. */
  predicate AllDatesOk(writes: seq<seq<Result<Write>>>, m: nat)
    requires m <= |writes|
  {
    forall i :: 0 <= i < m ==> AllOk(writes[i], |writes[i]|)
  }

  /**
   * `out` is `rows` with the writes of the first `m` dates applied: a row no
   * date maps to is unchanged, and each cell of a date's row holds the last
   * text that row's writes put in its column, or what it held before.
   */
  predicate DatesFilled(rows: seq<seq<string>>, slots: seq<nat>, rowWrites: seq<seq<Result<Write>>>,
                        width: nat, m: nat, out: seq<seq<string>>)
    requires Widths(rows, width) && |rowWrites| == |rows| && m <= |slots|
  {
    |out| == |rows| && Widths(out, width)
    && forall r, c :: 0 <= r < |rows| && 0 <= c < width ==>
         out[r][c] == if r in slots[..m] then Or(LastWrite(rowWrites[r], c, |rowWrites[r]|), rows[r][c]) else rows[r][c]
  }

  /** The loop over the dates succeeds exactly when none of its writes raises. */
  lemma {:induction false} WriteDatesOk(rows: seq<seq<string>>, slots: seq<nat>, writes: seq<seq<Result<Write>>>,
                                        width: nat, m: nat)
    requires Widths(rows, width)
    requires |slots| == |writes| && forall i :: 0 <= i < |slots| ==> slots[i] < |rows|
    requires forall i :: 0 <= i < |writes| ==> InColumns(writes[i], width)
    requires m <= |writes|
    ensures WriteDates(rows, slots, writes, width, m).Ok? <==> AllDatesOk(writes, m)
    decreases m
  {
    if m > 0 {
      WriteDatesOk(rows, slots, writes, width, m - 1);
      var previous := WriteDates(rows, slots, writes, width, m - 1);
      if previous.Ok? {
        WriteRecordsCells(previous.value, slots[m - 1], writes[m - 1], width, |writes[m - 1]|);
      }
    }
  }

  /**
   * When the loop over the dates succeeds, it leaves the rows no date maps
   * to alone, and each cell of a date's row holds the last text that row's
   * writes put in its column, or what it held before.
   */
  lemma {:induction false} WriteDatesCells(rows: seq<seq<string>>, slots: seq<nat>, writes: seq<seq<Result<Write>>>,
                                           rowWrites: seq<seq<Result<Write>>>, width: nat, m: nat)
    requires Widths(rows, width) && |rowWrites| == |rows|
    requires |slots| == |writes| && forall i :: 0 <= i < |slots| ==> slots[i] < |rows|
    requires forall i :: 0 <= i < |writes| ==> InColumns(writes[i], width)
    requires m <= |writes| && WritesByRow(slots, writes, rowWrites)
    requires WriteDates(rows, slots, writes, width, m).Ok?
    ensures DatesFilled(rows, slots, rowWrites, width, m, WriteDates(rows, slots, writes, width, m).value)
    decreases m
  {
    if m == 0 {
      assert slots[..0] == [];
    } else {
      WriteDatesCells(rows, slots, writes, rowWrites, width, m - 1);
      var before := WriteDates(rows, slots, writes, width, m - 1).value;
      var s, w := slots[m - 1], writes[m - 1];
      WriteRecordsCells(before, s, w, width, |w|);
      WriteDatesStep(rows, slots, writes, rowWrites, width, m - 1, before, WriteRecords(before, s, w, width, |w|).value);
    }
  }

  /** One more date written: the cells after the first `m + 1` dates. */
  lemma WriteDatesStep(rows: seq<seq<string>>, slots: seq<nat>, writes: seq<seq<Result<Write>>>,
                       rowWrites: seq<seq<Result<Write>>>, width: nat, m: nat,
                       before: seq<seq<string>>, out: seq<seq<string>>)
    requires Widths(rows, width) && |rowWrites| == |rows|
    requires |slots| == |writes| && forall i :: 0 <= i < |slots| ==> slots[i] < |rows|
    requires m < |writes| && WritesByRow(slots, writes, rowWrites)
    requires DatesFilled(rows, slots, rowWrites, width, m, before)
    requires RowFilled(before, slots[m], writes[m], width, |writes[m]|, out)
    ensures DatesFilled(rows, slots, rowWrites, width, m + 1, out)
  {
    var s := slots[m];
    assert slots[..m + 1] == slots[..m] + [s];
    assert writes[m] == rowWrites[s];
  }

  // ---------------------------------------------------------------------
  // One course (one iteration of the loop of helper.py:188-212)
  // ---------------------------------------------------------------------

  /** The writes the row of each key would receive from a course: one per record, in order. */
  function RowWrites(tt: Timetable, order: seq<string>, times: seq<string>, attendances: seq<string>)
    : (r: seq<seq<Result<Write>>>)
    requires |times| == |attendances|
    ensures |r| == |order|
    ensures forall k :: 0 <= k < |r| ==> r[k] == DateWrites(tt, order[k], times, attendances)
  {
    seq(|order|, k requires 0 <= k < |order| => DateWrites(tt, order[k], times, attendances))
  }

  /**
   * What the row of key `date` holds in column `c` after a course with the
   * records `records`, given what it held before: when the course has a
   * record on that date, the text of the course's last record, of any date,
   * whose time is in column `c`.
   */
  function CourseCell(tt: Timetable, records: seq<Record>, date: string, c: nat, before: string): string
  {
    if date in CourseDates(records) then
      Or(LastWrite(DateWrites(tt, date, CourseTimes(records), CourseAttendances(records)), c, |records|), before)
    else before
  }

  /** No write of a course raises: every record, written into the row of every date of the course. */
  predicate CourseOk(tt: Timetable, records: seq<Record>)
  {
    forall i, j {:trigger CellWrite(tt, CourseDates(records)[i], CourseTimes(records)[j], records[j].attendance)} ::
      0 <= i < |records| && 0 <= j < |records| ==>
        CellWrite(tt, CourseDates(records)[i], CourseTimes(records)[j], records[j].attendance).Ok?
  }

  /** The loop of helper.py:207-212 for one course succeeds exactly when no write of the course raises. */
  lemma FillRowsOk(tt: Timetable, prepared: Pivot, records: seq<Record>)
    requires Valid(prepared, |tt.times|)
    requires forall i :: 0 <= i < |records| ==> CourseDates(records)[i] in prepared.order
    ensures FillRows(tt, prepared, records).Ok? <==> CourseOk(tt, records)
  {
    var dates, times, attendances := CourseDates(records), CourseTimes(records), CourseAttendances(records);
    var writes := CourseWrites(tt, dates, times, attendances);
    WriteDatesOk(prepared.rows, Slots(prepared.order, dates), writes, |tt.times|, |dates|);
    assert AllDatesOk(writes, |dates|) <==> CourseOk(tt, records) by {
      forall i, j | 0 <= i < |records| && 0 <= j < |records|
        ensures writes[i][j] == CellWrite(tt, dates[i], times[j], records[j].attendance)
      {
      }
    }
  }

  /**
   * After the loop of helper.py:207-212 for one course, the row of a key the
   * course has a date for holds in each column the course's last text for
   * that column, or what it held; the other rows are unchanged.
   */
  lemma FillRowsCells(tt: Timetable, prepared: Pivot, records: seq<Record>)
    requires Valid(prepared, |tt.times|) && Distinct(prepared.order)
    requires forall i :: 0 <= i < |records| ==> CourseDates(records)[i] in prepared.order
    requires FillRows(tt, prepared, records).Ok?
    ensures forall r, c :: 0 <= r < |prepared.order| && 0 <= c < |tt.times| ==>
      FillRows(tt, prepared, records).value[r][c]
        == CourseCell(tt, records, prepared.order[r], c, prepared.rows[r][c])
  {
    var dates, times, attendances := CourseDates(records), CourseTimes(records), CourseAttendances(records);
    var writes := CourseWrites(tt, dates, times, attendances);
    var slots := Slots(prepared.order, dates);
    var rowWrites := RowWrites(tt, prepared.order, times, attendances);
    var width := |tt.times|;
    assert WritesByRow(slots, writes, rowWrites);
    WriteDatesCells(prepared.rows, slots, writes, rowWrites, width, |dates|);
    assert slots[..|dates|] == slots;
    var out := FillRows(tt, prepared, records).value;
    forall r, c | 0 <= r < |prepared.order| && 0 <= c < width
      ensures out[r][c] == CourseCell(tt, records, prepared.order[r], c, prepared.rows[r][c])
    {
      SlotOfKey(prepared.order, dates, r);
    }
  }

  /** With distinct keys, a key's position is a date's slot exactly when the key is among the dates. */
  lemma SlotOfKey(order: seq<string>, dates: seq<string>, r: nat)
    requires Distinct(order) && r < |order|
    requires forall i :: 0 <= i < |dates| ==> dates[i] in order
    ensures r in Slots(order, dates) <==> order[r] in dates
  {
    var slots := Slots(order, dates);
    if order[r] in dates {
      var i :| 0 <= i < |dates| && dates[i] == order[r];
      assert slots[i] == r;
    }
  }

  /** What the row at position `r` holds before a course: its text, or `-` in a row the course opens. */
  function Previous(p: Pivot, r: nat, c: nat): string
  {
    if r < |p.rows| && c < |p.rows[r]| then p.rows[r][c] else Blank
  }

  /** One course succeeds exactly when none of its writes raises. */
  lemma PivotCourseOk(tt: Timetable, p: Pivot, records: seq<Record>)
    requires Valid(p, |tt.times|)
    ensures PivotCourse(tt, p, records).Ok? <==> CourseOk(tt, records)
  {
    FillRowsOk(tt, OpenRows(p, CourseDates(records), |tt.times|), records);
  }

  /**
   * One course keeps the keys and their order, appends the dates it sees
   * first, and leaves in each cell what `CourseCell` says, starting from
   * the old text or from `-` in a new row.
   */
  lemma PivotCourseCells(tt: Timetable, p: Pivot, records: seq<Record>)
    requires Valid(p, |tt.times|) && Distinct(p.order)
    requires PivotCourse(tt, p, records).Ok?
    ensures var q := PivotCourse(tt, p, records).value;
      Distinct(q.order) && |p.order| <= |q.order| && q.order[..|p.order|] == p.order
    ensures var q := PivotCourse(tt, p, records).value;
      forall r, c :: 0 <= r < |q.order| && 0 <= c < |tt.times| ==>
        q.rows[r][c] == CourseCell(tt, records, q.order[r], c, Previous(p, r, c))
  {
    var dates := CourseDates(records);
    var prepared := OpenRows(p, dates, |tt.times|);
    AppendUnseenDistinct(p.order, dates);
    AppendUnseenExtends(p.order, dates);
    FillRowsCells(tt, prepared, records);
    forall r, c | 0 <= r < |prepared.order| && 0 <= c < |tt.times|
      ensures prepared.rows[r][c] == Previous(p, r, c)
    {
    }
  }

  // ---------------------------------------------------------------------
  // All courses: the dict, cell by cell
  // ---------------------------------------------------------------------

  /** The dates of all records, course by course. */
  function AllDates(courses: seq<seq<Record>>): seq<string>
    decreases |courses|
  {
    if |courses| == 0 then []
    else AllDates(courses[..|courses| - 1]) + CourseDates(courses[|courses| - 1])
  }

  /**
   * The text the report shows for `date` in column `c` after the courses
   * `courses`: the last course with a record on that date and a record,
   * of any date, whose time is in column `c` decides it; otherwise `-`.
   */
  function CellText(tt: Timetable, courses: seq<seq<Record>>, date: string, c: nat): string
    decreases |courses|
  {
    if |courses| == 0 then Blank
    else CourseCell(tt, courses[|courses| - 1], date, c, CellText(tt, courses[..|courses| - 1], date, c))
  }

  /** A date no record has stays blank in every column. */
  lemma {:induction false} CellTextUnseen(tt: Timetable, courses: seq<seq<Record>>, date: string, c: nat)
    requires date !in AllDates(courses)
    ensures CellText(tt, courses, date, c) == Blank
    decreases |courses|
  {
    if |courses| > 0 {
      CellTextUnseen(tt, courses[..|courses| - 1], date, c);
    }
  }

  /** No write of any of the courses raises, course by course. */
  predicate AllCoursesOk(tt: Timetable, courses: seq<seq<Record>>)
    decreases |courses|
  {
    |courses| == 0 || (AllCoursesOk(tt, courses[..|courses| - 1]) && CourseOk(tt, courses[|courses| - 1]))
  }

  /** `AllCoursesOk` holds exactly when every course is `CourseOk`. */
  lemma {:induction false} AllCoursesOkMeaning(tt: Timetable, courses: seq<seq<Record>>)
    ensures AllCoursesOk(tt, courses) <==> forall k :: 0 <= k < |courses| ==> CourseOk(tt, courses[k])
    decreases |courses|
  {
    if |courses| > 0 {
      var prefix := courses[..|courses| - 1];
      AllCoursesOkMeaning(tt, prefix);
      assert forall k :: 0 <= k < |prefix| ==> prefix[k] == courses[k];
    }
  }

  /** The dict is built exactly when no write of any course raises. */
  lemma {:induction false} PivotCoursesOk(tt: Timetable, courses: seq<seq<Record>>)
    ensures PivotCourses(tt, courses).Ok? <==> AllCoursesOk(tt, courses)
    decreases |courses|
  {
    if |courses| > 0 {
      var prefix, last := courses[..|courses| - 1], courses[|courses| - 1];
      PivotCoursesOk(tt, prefix);
      var before := PivotCourses(tt, prefix);
      if before.Ok? {
        PivotCourseOk(tt, before.value, last);
      }
    }
  }

  /**
   * The dict after all courses: its keys are the dates in the order they are
   * first seen, once each, and each cell holds `CellText`.
   */
  lemma {:induction false} PivotCoursesCells(tt: Timetable, courses: seq<seq<Record>>)
    requires PivotCourses(tt, courses).Ok?
    ensures var p := PivotCourses(tt, courses).value;
      p.order == AppendUnseen([], AllDates(courses)) && Distinct(p.order)
    ensures var p := PivotCourses(tt, courses).value;
      forall r, c :: 0 <= r < |p.order| && 0 <= c < |tt.times| ==> p.rows[r][c] == CellText(tt, courses, p.order[r], c)
    decreases |courses|
  {
    if |courses| > 0 {
      var prefix, last := courses[..|courses| - 1], courses[|courses| - 1];
      PivotCoursesCells(tt, prefix);
      var before := PivotCourses(tt, prefix).value;
      PivotCourseCells(tt, before, last);
      AppendUnseenConcat([], AllDates(prefix), CourseDates(last));
      PivotCoursesStep(tt, prefix, last, before, PivotCourse(tt, before, last).value);
    }
  }

  /** The cells after one more course, from the cells before it. */
  lemma PivotCoursesStep(tt: Timetable, prefix: seq<seq<Record>>, last: seq<Record>, before: Pivot, after: Pivot)
    requires Valid(before, |tt.times|) && Valid(after, |tt.times|) && Distinct(after.order)
    requires before.order == AppendUnseen([], AllDates(prefix))
    requires |before.order| <= |after.order| && after.order[..|before.order|] == before.order
    requires forall r, c :: 0 <= r < |before.order| && 0 <= c < |tt.times| ==>
      before.rows[r][c] == CellText(tt, prefix, before.order[r], c)
    requires forall r, c :: 0 <= r < |after.order| && 0 <= c < |tt.times| ==>
      after.rows[r][c] == CourseCell(tt, last, after.order[r], c, Previous(before, r, c))
    ensures forall r, c :: 0 <= r < |after.order| && 0 <= c < |tt.times| ==>
      after.rows[r][c] == CellText(tt, prefix + [last], after.order[r], c)
  {
    var courses := prefix + [last];
    assert courses[..|courses| - 1] == prefix;
    forall r, c | 0 <= r < |after.order| && 0 <= c < |tt.times|
      ensures after.rows[r][c] == CellText(tt, courses, after.order[r], c)
    {
      var date := after.order[r];
      if r < |before.order| {
        assert before.order[r] == date;
      } else {
        forall r' | 0 <= r' < |before.order|
          ensures before.order[r'] != date
        {
          assert after.order[r'] == before.order[r'];
        }
        AppendUnseenMembers([], AllDates(prefix), date);
        CellTextUnseen(tt, prefix, date, c);
      }
    }
  }

  // ---------------------------------------------------------------------
  // What a cell shows, record by record
  // ---------------------------------------------------------------------

  /** The last of the first `n` writes aimed at column `c` is the one at position `j`. */
  lemma {:induction false} LastWriteAt(writes: seq<Result<Write>>, c: nat, n: nat, j: nat)
    requires j < n <= |writes|
    requires writes[j].Ok? && writes[j].value.column == c
    requires forall k :: j < k < n ==> !(writes[k].Ok? && writes[k].value.column == c)
    ensures LastWrite(writes, c, n) == Some(writes[j].value.text)
    decreases n
  {
    if j < n - 1 {
      LastWriteAt(writes, c, n - 1, j);
    }
  }

  /** None of the first `n` writes is aimed at column `c`. */
  lemma {:induction false} LastWriteNone(writes: seq<Result<Write>>, c: nat, n: nat)
    requires n <= |writes|
    requires forall k :: 0 <= k < n ==> !(writes[k].Ok? && writes[k].value.column == c)
    ensures LastWrite(writes, c, n) == None
    decreases n
  {
    if n > 0 {
      LastWriteNone(writes, c, n - 1);
    }
  }

  /**
   * In a course none of whose writes raises, the row of any date of the
   * course shows, in the column of record `j`'s time, the class the
   * timetable has there on that date's weekday and record `j`'s mark, when
   * `j` is the course's last record at that time, whatever date `j` was
   * recorded on.
   */
  lemma CourseCellOfRecord(tt: Timetable, records: seq<Record>, date: string, j: nat, before: string)
    requires CourseOk(tt, records)
    requires date in CourseDates(records) && j < |records|
    requires forall k :: j < k < |records| ==> CourseTimes(records)[k] != CourseTimes(records)[j]
    ensures IndexOf(tt.times, CourseTimes(records)[j]).Some?
    ensures SlotClass(tt, date, IndexOf(tt.times, CourseTimes(records)[j]).value).Some?
    ensures var c := IndexOf(tt.times, CourseTimes(records)[j]).value;
      CourseCell(tt, records, date, c, before) == SlotClass(tt, date, c).value + ": " + records[j].attendance
  {
    var times, attendances := CourseTimes(records), CourseAttendances(records);
    var writes := DateWrites(tt, date, times, attendances);
    var i :| 0 <= i < |records| && CourseDates(records)[i] == date;
    assert writes[j] == CellWrite(tt, date, times[j], records[j].attendance);
    CellWriteMeaning(tt, date, times[j], records[j].attendance);
    var c := writes[j].value.column;
    forall k | j < k < |records|
      ensures !(writes[k].Ok? && writes[k].value.column == c)
    {
      CellWriteMeaning(tt, date, times[k], attendances[k]);
    }
    LastWriteAt(writes, c, |records|, j);
  }

  /** A column no record of the course maps to keeps what it held. */
  lemma CourseCellUntouched(tt: Timetable, records: seq<Record>, date: string, c: nat, before: string)
    requires forall k :: 0 <= k < |records| ==> IndexOf(tt.times, CourseTimes(records)[k]) != Some(c)
    ensures CourseCell(tt, records, date, c, before) == before
  {
    var times, attendances := CourseTimes(records), CourseAttendances(records);
    var writes := DateWrites(tt, date, times, attendances);
    forall k | 0 <= k < |records|
      ensures !(writes[k].Ok? && writes[k].value.column == c)
    {
      CellWriteMeaning(tt, date, times[k], attendances[k]);
    }
    LastWriteNone(writes, c, |records|);
  }

  // ---------------------------------------------------------------------
  // The report
  // ---------------------------------------------------------------------

  /** `getAttendanceTableFor` returns a report exactly when no write of any course raises. */
  lemma ReportOk(tt: Timetable, courses: seq<seq<Record>>)
    ensures AttendanceReport(tt, courses).Ok? <==> forall k :: 0 <= k < |courses| ==> CourseOk(tt, courses[k])
  {
    PivotCoursesOk(tt, courses);
    AllCoursesOkMeaning(tt, courses);
  }

  /**
   * The report has the header `Date` and the timetable's times, and one
   * row per date in the order the dates are first seen, course by course:
   * the date and then, for each time, its `CellText`.
   */
  lemma ReportRows(tt: Timetable, courses: seq<seq<Record>>)
    requires AttendanceReport(tt, courses).Ok?
    ensures AttendanceReport(tt, courses).value.header == ["Date"] + tt.times
    ensures var rows := AttendanceReport(tt, courses).value.rows;
      |rows| == |AppendUnseen([], AllDates(courses))|
      && forall i :: 0 <= i < |rows| ==>
           |rows[i]| == |tt.times| + 1 && rows[i][0] == AppendUnseen([], AllDates(courses))[i]
    ensures var rows := AttendanceReport(tt, courses).value.rows;
      forall i, c :: 0 <= i < |rows| && 0 <= c < |tt.times| ==> rows[i][c + 1] == CellText(tt, courses, rows[i][0], c)
  {
    PivotCoursesCells(tt, courses);
  }

  /**
   * The report lists every date of every record exactly once, and a date
   * first seen earlier comes first.
   */
  lemma ReportDates(tt: Timetable, courses: seq<seq<Record>>)
    requires AttendanceReport(tt, courses).Ok?
    ensures var rows := AttendanceReport(tt, courses).value.rows;
      forall i, i' :: 0 <= i < |rows| && 0 <= i' < |rows| && i != i' ==> rows[i][0] != rows[i'][0]
    ensures var rows := AttendanceReport(tt, courses).value.rows;
      forall d :: d in AllDates(courses) <==> exists i :: 0 <= i < |rows| && rows[i][0] == d
    ensures var rows := AttendanceReport(tt, courses).value.rows;
      forall i, i' :: 0 <= i < i' < |rows| ==>
        IndexOf(AllDates(courses), rows[i][0]).value < IndexOf(AllDates(courses), rows[i'][0]).value
  {
    ReportRows(tt, courses);
    KeyedRows(AttendanceReport(tt, courses).value.rows, AllDates(courses));
  }

  /** Rows keyed by the dates of `dates` in first-seen order list each date once, in that order. */
  lemma KeyedRows(rows: seq<seq<string>>, dates: seq<string>)
    requires |rows| == |AppendUnseen([], dates)|
    requires forall i :: 0 <= i < |rows| ==> |rows[i]| >= 1 && rows[i][0] == AppendUnseen([], dates)[i]
    ensures forall i, i' :: 0 <= i < |rows| && 0 <= i' < |rows| && i != i' ==> rows[i][0] != rows[i'][0]
    ensures forall d :: d in dates <==> exists i :: 0 <= i < |rows| && rows[i][0] == d
    ensures forall i, i' :: 0 <= i < i' < |rows| ==>
      IndexOf(dates, rows[i][0]).value < IndexOf(dates, rows[i'][0]).value
  {
    var keys := AppendUnseen([], dates);
    AppendUnseenDistinct([], dates);
    AppendUnseenFirstSeen(dates);
    forall d
      ensures d in dates <==> exists i :: 0 <= i < |rows| && rows[i][0] == d
    {
      AppendUnseenMembers([], dates, d);
      if d in keys {
        var i :| 0 <= i < |keys| && keys[i] == d;
        assert rows[i][0] == d;
      }
    }
  }

  /**
   * For one course: the row of the date of record `i` shows, in the column
   * of record `j`'s time, the timetable's class for that date's weekday and
   * record `j`'s mark, when `j` is the last record at that time, even if
   * `j` was recorded on another date.
   */
  lemma CrossDateWrite(tt: Timetable, records: seq<Record>, i: nat, j: nat)
    requires AttendanceReport(tt, [records]).Ok?
    requires i < |records| && j < |records|
    requires forall k :: j < k < |records| ==> CourseTimes(records)[k] != CourseTimes(records)[j]
    ensures IndexOf(tt.times, CourseTimes(records)[j]).Some?
    ensures var date, c := DateOf(records[i].dayTime), IndexOf(tt.times, CourseTimes(records)[j]).value;
      SlotClass(tt, date, c).Some?
      && forall r :: (0 <= r < |AttendanceReport(tt, [records]).value.rows|
                       && AttendanceReport(tt, [records]).value.rows[r][0] == date) ==>
           AttendanceReport(tt, [records]).value.rows[r][c + 1] == SlotClass(tt, date, c).value + ": " + records[j].attendance
  {
    ReportOk(tt, [records]);
    ReportRows(tt, [records]);
    assert CourseOk(tt, [records][0]);
    CrossDateCells(tt, records, AttendanceReport(tt, [records]).value.rows, i, j);
  }

  lemma CrossDateCells(tt: Timetable, records: seq<Record>, rows: seq<seq<string>>, i: nat, j: nat)
    requires CourseOk(tt, records)
    requires forall r :: 0 <= r < |rows| ==> |rows[r]| == |tt.times| + 1
    requires forall r, c :: 0 <= r < |rows| && 0 <= c < |tt.times| ==> rows[r][c + 1] == CellText(tt, [records], rows[r][0], c)
    requires i < |records| && j < |records|
    requires forall k :: j < k < |records| ==> CourseTimes(records)[k] != CourseTimes(records)[j]
    ensures IndexOf(tt.times, CourseTimes(records)[j]).Some?
    ensures var date, c := DateOf(records[i].dayTime), IndexOf(tt.times, CourseTimes(records)[j]).value;
      SlotClass(tt, date, c).Some?
      && forall r :: 0 <= r < |rows| && rows[r][0] == date ==> rows[r][c + 1] == SlotClass(tt, date, c).value + ": " + records[j].attendance
  {
    var date := DateOf(records[i].dayTime);
    assert CourseDates(records)[i] == date;
    CourseCellOfRecord(tt, records, date, j, Blank);
    OneCourseCellText(tt, records, date, IndexOf(tt.times, CourseTimes(records)[j]).value);
  }

  /** With a single course, a cell is what that course leaves in a blank row. */
  lemma OneCourseCellText(tt: Timetable, records: seq<Record>, date: string, c: nat)
    ensures CellText(tt, [records], date, c) == CourseCell(tt, records, date, c, Blank)
  {
    assert [records][..0] == [];
  }

  /** A record whose date falls on a weekday the timetable does not list makes the call raise. */
  lemma MissingWeekdayRaises(tt: Timetable, courses: seq<seq<Record>>, k: nat, i: nat)
    requires k < |courses| && i < |courses[k]|
    requires var day := GetWeekDay(DateOf(courses[k][i].dayTime), '-');
      day.Ok? && day.value !in tt.weekDays
    ensures AttendanceReport(tt, courses).Err?
  {
    var records := courses[k];
    assert CourseDates(records)[i] == DateOf(records[i].dayTime);
    assert CellWrite(tt, CourseDates(records)[i], CourseTimes(records)[i], records[i].attendance).Err?;
    ReportOk(tt, courses);
  }

  /** A record whose padded time is not a timetable time makes the call raise. */
  lemma MissingTimeRaises(tt: Timetable, courses: seq<seq<Record>>, k: nat, j: nat)
    requires k < |courses| && j < |courses[k]|
    requires CourseTimes(courses[k])[j] !in tt.times
    ensures AttendanceReport(tt, courses).Err?
  {
    var records := courses[k];
    assert CellWrite(tt, CourseDates(records)[j], CourseTimes(records)[j], records[j].attendance).Err?;
    ReportOk(tt, courses);
  }
}
