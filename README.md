# Attendance tracker core, modelled in Dafny

This project models the computational core of `helper.py`, the helper
module of a face-recognition attendance tracker. Each course has a table
with one row per class session. A row is keyed by a session key
`day-month-year-time`, for example `15-12-2022-900`, and has one `P`/`A`
column per enrolled student. The model covers:

- `markAttendance`: the column list and value list of a new session row,
  and the INSERT statement built from them (`mark_attendance.dfy`);
- `getAttendancePercentageFor`: the share of sessions a student attended,
  with the 0 fallback for a course with no sessions. It also covers the
  overall figure of `printTable`, which divides the sum of the per-course
  figures by the literal 8 (`percentage.dfy`);
- `getWeekDay`: the weekday name of a `day-month-year` string.
  `calendar.weekday` is modelled on a proleptic Gregorian calendar
  (`calendar.dfy`, `weekday.dfy`);
- `getAttendanceTableFor`: the per-student calendar. This covers the
  session-key split, the padding of three-character times, the dict from
  dates to rows of `-` cells, and the pivot that writes
  `"<class>: <mark>"` into those rows. The final list of rows sits under
  the header `['Date'] + times` (`attendance_table.dfy`). Its dict keys are
  characterised in `pivot_order.dfy` and its cells in `pivot_cells.dfy`;
- `getDefaultAttendanceRecord`: the default record of a day
  (`default_record.dfy`).

The Python built-ins the code relies on are stated once in
`builtins.dfy`: `str.split` on a one-character separator, `str.join`, `list.index`, `list.count`,
`int` and `str.upper`, together with the canonical decimal text of a
natural number. The exceptions the code can raise are the
constructors of `Outcomes.Error`, carried by `Outcomes.Result`.

Operations that loop and update variables are methods proved against a
specification function. These are `MarkAttendance.MarkAttendance`,
`Percentage.OverallPercentage`, `AttendanceTable.NormalizeTimes` (in place
on an array, as the Python list is updated in place) and the loops of
`AttendanceTable.GetAttendanceTableFor`. Each method's postcondition ties
its result to the function. The properties are proved about those
functions as lemmas.

What a cell of the calendar shows, and what happens on a gap in the
timetable, is what the code does:

- A cell is labelled with the class the timetable schedules on that date's
  weekday at that time (helper.py:210-212), whatever course the record
  came from.
- Every record of a course is written into the row of every date of that
  course (helper.py:207-212), not only into the row of the record's own
  date. So the last record of a course at a given time decides that column
  in all of the course's date rows, and later courses overwrite earlier
  ones. `PivotCells.CellText` states this, and `PivotCells.CrossDateWrite`
  proves it.
- A weekday or a time missing from the timetable makes `list.index` raise
  ValueError (helper.py:210-211), and the model returns that error
  (`PivotCells.MissingWeekdayRaises`, `PivotCells.MissingTimeRaises`).

## Model

| member | source | states |
|---|---|---|
| MarkAttendance.MarkAttendance | helper.py:76-95 | the first column is `dayTime` and the first value is the quoted session key. After that there is one quoted column per student column after the first (`StudentColumns`, `columns[1:]`) and one value per column, `'P'` exactly when that student is present and `'A'` exactly when not (`MarkFor`), so all `'A'` when nobody is. The statement is `INSERT INTO <COURSE> (cols) VALUES (vals);` with the upper-cased course, the columns joined by `, ` and the values by `,` |
| Builtins.Split | helper.py:166 | `str.split(sep)` gives at least one field and no field contains the separator |
| Builtins.Join | helper.py:92-93 | `sep.join(parts)` begins with the first part and is at least as long as every part; `JoinOfSplit` and `SplitOfJoin` make it the inverse of `Split` |
| Builtins.JoinOfSplit | helper.py:194 | joining the fields of a split with the separator gives back the string |
| Builtins.SplitOfJoin | helper.py:194-197 | splitting a join of separator-free fields gives back the fields |
| Builtins.IndexOf | helper.py:202 | `list.index`: None exactly when the element is absent (Python's ValueError); otherwise a position holding the element, and no earlier position holds it |
| Builtins.IndexOfFirst | helper.py:210-211 | the first position holding an element is the one `index` returns |
| Builtins.IndexOfAppendSeen | helper.py:202 | appending to a list does not move the first occurrence of an element already in it |
| Builtins.CountOfIsMultiplicity | helper.py:147 | `list.count` (`CountOf`) is the number of occurrences of the element: its multiplicity in the multiset of the list's elements, by induction |
| Builtins.ParseInt | helper.py:167-168 | `int()` succeeds exactly on a non-empty run of ASCII digits, optionally after one `-` or `+`, and raises ValueError on every other text, `''` included; an all-digit field, leading zeros included, is its decimal value, and a signed one its negation or itself |
| Builtins.DigitsValueLeadingZero | helper.py:167-168 | a leading `0` does not change the value of a digit string |
| Builtins.ParseIntLeadingZero | helper.py:167-168 | `int('05')` reads the same number as `int('5')`: a zero-padded field is read as its digits' value |
| Builtins.ParseIntOfShow | helper.py:167-168 | the canonical decimal text of a natural number (`Show`) reads back through `int()` as that number, the fact `GetWeekDayOfFormatted` relies on to read a date's fields |
| Builtins.AsciiUpper | helper.py:76 | `str.upper` keeps the length, turns each lower-case ASCII letter into its own capital and keeps every other character |
| Percentage.AttendancePercentageFor | helper.py:146-153 | 0 when the course has no sessions (the ZeroDivisionError fallback); otherwise the figure times the session count is 100 times the `P` count; between 0 and 100 whenever the `P` count is at most the session count |
| Percentage.Percentage | helper.py:149-151 | the figure is 0 when there are no sessions (where Python raises ZeroDivisionError and the function returns 0) or no presences, and 100 when every session was attended |
| Percentage.PercentageBounds | helper.py:149 | `present / total * 100` is never negative, is at most 100 when `present <= total`, and scales back to `100 * present` |
| Percentage.PercentageMonotone | helper.py:147-149 | at a fixed session count, more presences never lower the figure |
| Percentage.AbsentSessionNeverRaises | helper.py:146-149 | one more session the student missed never raises the figure |
| Percentage.PresentSessionNeverLowers | helper.py:146-149 | one more session the student attended never lowers the figure |
| Percentage.PresentSessionRaises | helper.py:146-149 | one more attended session strictly raises the figure whenever it was below 100: some session was missed, or none was held yet |
| Percentage.AbsentSessionLowers | helper.py:146-149 | one more missed session strictly lowers the figure whenever the student had attended at least once |
| Percentage.SessionMovesPercentage | helper.py:146-153 | one more session row from `markAttendance` adds one to the student's `P` count exactly when the student was present; the figure then never falls for a present student and never rises for an absent one, and it moves strictly unless it already stood at 100 (present) or at 0 (absent) |
| Percentage.PresentFigureStep | helper.py:146-149 | a column with one more `P` over one more session never has a lower figure |
| Percentage.AbsentFigureStep | helper.py:146-149 | a column with the same `P` count over one more session never has a higher figure |
| Percentage.PresentFigureRaises | helper.py:146-149 | a column with one more `P` over one more session has a strictly higher figure, unless the figure already stood at 100 |
| Percentage.AbsentFigureLowers | helper.py:146-149 | a column with the same non-zero `P` count over one more session has a strictly lower figure |
| Percentage.PresentColumnStep | helper.py:146-149 | a `P` appended to the student's column, with one more row, never lowers the figure |
| Percentage.AbsentColumnStep | helper.py:146-149 | any other mark appended, with one more row, never raises the figure |
| Percentage.SumOfPercentagesBounds | helper.py:27-29 | the sum over courses lies between 0 and 100 per course |
| Percentage.OverallPercentage | helper.py:27-32 | the loop's sum divided by the literal 8, whatever the number of courses: the figure times 8 is the sum of the per-course figures, and it lies between 0 and 12.5 per course |
| Percentage.EightCoursesGiveAMean | helper.py:32 | with exactly eight courses the overall figure is a mean and lies between 0 and 100 |
| Calendar.DaysInMonth | helper.py:167-168 | a month has 28 to 31 days, fewer than 30 exactly in February |
| Calendar.Weekday | helper.py:167-168 | a valid date's weekday is one of 0..6, Monday first |
| Calendar.FirstDayIsMonday | helper.py:167-168 | 1 January of year 1 is a Monday |
| Calendar.NextDayOrdinal | helper.py:167-168 | consecutive days have consecutive ordinals, across month and year ends |
| Calendar.NextDayWeekday | helper.py:167-168 | each day's weekday follows the previous day's |
| Calendar.AddDaysOrdinal | helper.py:167-168 | `n` days later the ordinal has grown by `n` |
| Calendar.WeeksLater | helper.py:167-168 | whole weeks later it is the same weekday |
| Calendar.WeekdayYear | helper.py:167-168 | the year `calendar.weekday` substitutes lies in 1..9999 and differs from the given year by whole 400-year cycles |
| Calendar.WeekdayYearKeepsWeekday | helper.py:167-168 | the substituted year keeps a date valid exactly when it was valid, and keeps its weekday |
| WeekDay.ToInt | helper.py:167-168 | `int(field)` succeeds exactly when the field is an integer and gives its value; an all-digit field, leading zeros included, gives its decimal value; an empty field raises ValueError on that field, as does every other non-integer |
| WeekDay.GetWeekDay | helper.py:156-168 | raises on a split that does not give three fields, and only then for that reason; a successful answer is one of the seven day names |
| WeekDay.GetWeekDayIsGregorian | helper.py:166-168 | succeeds exactly on strings whose three integer fields name a valid date, for every year, and then gives that date's proleptic Gregorian weekday name |
| WeekDay.GetWeekDayOfFormatted | helper.py:166-168 | the `day-month-year` text of a date reads back as its weekday name |
| WeekDay.GetWeekDayOfPadded | helper.py:166-168 | the zero-padded text of a date such as `05-06-2023`, day and month as two digits, splits into that date and reads back as its weekday name |
| WeekDay.GetWeekDayWeeksLater | helper.py:166-168 | the same name comes back whole weeks later |
| WeekDay.DocstringDateIsThursday | helper.py:74 | `15-12-2022`, the date in the docstring's example key, is a Thursday |
| AttendanceTable.SessionKeyParts | helper.py:194-197 | a key of four dash-free fields splits into its first three fields joined by `-` and its last field |
| AttendanceTable.SessionKeyRoundTrip | helper.py:194-197 | a four-field key is its date, a dash and its time |
| AttendanceTable.DateOf | helper.py:194-195 | a key with at most three fields is its own date: cutting at three fields and joining again gives the text back |
| AttendanceTable.TimeOf | helper.py:196-197 | a key's time, its last field, never contains a dash |
| AttendanceTable.PadTime | helper.py:200-202 | a padded time never has three characters, and is at most one character longer than the time |
| AttendanceTable.PadTimeNormalizes | helper.py:200-202 | a three-character time becomes `0` plus itself, any other time is kept, and padding is idempotent |
| AttendanceTable.ThreeCharacterSessionTime | helper.py:196-202 | the time of a key such as `15-12-2022-900` comes out as `0900`, four characters |
| AttendanceTable.NormalizeTimes | helper.py:200-202 | the in-place loop over `times` leaves every entry padded, because `times.index(time)` always finds the current position |
| AttendanceTable.SplitRecords | helper.py:194-202 | the method's three lists are, per record, the key's first three fields joined by `-` (`CourseDates`), the key's last field after the padding loop on an array (`CourseTimes`), and the record's mark (`CourseAttendances`), each as long as the records |
| AttendanceTable.CourseRecordParts | helper.py:194-202 | record `i`'s four-field key is its date, a dash and its time; a three- or four-character time comes out as four characters and is already padded; its mark is the record's mark |
| AttendanceTable.OpenRows | helper.py:203-205 | every date gets a key; new keys are appended in first-seen order with a row of one `-` per timetable time (`BlankRow`, `['-'] * len(times)`); existing rows are kept as they were |
| AttendanceTable.OpenDateRows | helper.py:203-205 | the loop over the dates gives exactly `OpenRows` |
| AttendanceTable.CellWriteMeaning | helper.py:210-212 | a write succeeds exactly when the time is a timetable column and the timetable has a class there on the date's weekday; it then targets the column `times.index(time)` with the text `"<class>: <mark>"` |
| AttendanceTable.LookUpCell | helper.py:210-212 | the lookups, with an early return at each raising step, give exactly `CellWrite` |
| AttendanceTable.CellWrite | helper.py:210-212 | a successful write targets the column `times.index(time)`, inside the row; a time that is not a timetable time always raises |
| AttendanceTable.FillDateRow | helper.py:209-212 | the inner loop gives exactly `WriteRecords` on the date's writes, stopping at the first error |
| AttendanceTable.FillCourseRows | helper.py:207-212 | the loop over the course's dates gives exactly `FillRows` |
| AttendanceTable.AddCourse | helper.py:188-212 | one course iteration gives exactly `PivotCourse` |
| AttendanceTable.GetAttendanceTableFor | helper.py:171-221 | the method gives exactly `AttendanceReport`: the dict built course by course, or the first exception |
| AttendanceTable.AttendanceReport | helper.py:171-221 | a returned report has the header `['Date'] + times` and every row is one wider than the times; with no courses it is that header over no rows |
| AttendanceTable.WriteRecordsNext | helper.py:209-212 | after `j` successful writes the next either applies its cell or its error ends the loop |
| AttendanceTable.PivotCoursesFailsAt | helper.py:188-212 | an exception in one course is the exception of the whole call |
| PivotOrder.AppendUnseenExtends | helper.py:203-205 | opening rows never removes or reorders a key |
| PivotOrder.AppendUnseenMembers | helper.py:203-205 | a key is present afterwards exactly when it was before or is among the dates |
| PivotOrder.AppendUnseenDistinct | helper.py:203-205 | keys stay pairwise different |
| PivotOrder.AppendUnseenConcat | helper.py:188-205 | opening the dates of two courses one after the other is opening their concatenation |
| PivotOrder.AppendUnseenFirstSeen | helper.py:203-205 | every key is a date; an earlier key was first seen earlier |
| PivotCells.WriteRecordsCells | helper.py:209-212 | the inner loop succeeds exactly when none of its writes raises; it then leaves other rows alone, and each cell of its row holds the last text written to that column or what it held |
| PivotCells.WriteDatesOk | helper.py:207-212 | the loop over the dates succeeds exactly when no write of any date raises |
| PivotCells.WriteDatesCells | helper.py:207-212 | after it, a date's row holds the last text its writes put in each column, and a row no date maps to is unchanged |
| PivotCells.FillRowsOk | helper.py:207-212 | one course's writes succeed exactly when every record, written into every date row of the course, has a timetable class |
| PivotCells.FillRowsCells | helper.py:207-212 | each cell of a key the course has a date for holds the course's last text for that column; other rows are unchanged |
| PivotCells.PivotCourseOk | helper.py:188-212 | one course iteration succeeds exactly when `CourseOk` |
| PivotCells.PivotCourseCells | helper.py:188-212 | one course keeps the keys and their order, appends the new dates, and leaves in each cell what `CourseCell` says on top of the old text or a `-` |
| PivotCells.CellTextUnseen | helper.py:205 | a date no record has is blank in every column |
| PivotCells.AllCoursesOkMeaning | helper.py:188-212 | the course-by-course success condition is "every course is `CourseOk`" |
| PivotCells.PivotCoursesOk | helper.py:188-212 | the dict is built exactly when no course raises |
| PivotCells.PivotCoursesCells | helper.py:182-212 | the keys are all dates in first-seen order, once each, and every cell holds `CellText` |
| PivotCells.CourseCellOfRecord | helper.py:207-212 | the row of any date of a course shows, in the column of record `j`'s time, the timetable's class there and record `j`'s mark, when `j` is the course's last record at that time |
| PivotCells.CourseCellUntouched | helper.py:207-212 | a column no record of the course maps to keeps what it held |
| PivotCells.LastWriteAt | helper.py:209-212 | the latest write to a column is the one that stays |
| PivotCells.ReportOk | helper.py:171-221 | a report comes back exactly when every course is `CourseOk`, and an exception otherwise |
| PivotCells.ReportRows | helper.py:203-220 | header `['Date'] + times`; one row per first-seen date, each as wide as the header, the date first and then `CellText` for each time, which is what `ReportOf` makes of the dict's items under the DataFrame columns |
| PivotCells.ReportDates | helper.py:203-215 | every date of every record appears exactly once as a row key, no other key appears, and the keys are in first-seen order |
| PivotCells.KeyedRows | helper.py:214-215 | rows keyed in first-seen order list each date once, in that order |
| PivotCells.CrossDateWrite | helper.py:207-212 | for one course, every row of a record's date shows, in the column of the course's last record at some time, that record's mark with the timetable's class for the row's date, even when that record was taken on another date |
| PivotCells.MissingWeekdayRaises | helper.py:210 | a record on a weekday the timetable does not list makes the call raise |
| PivotCells.MissingTimeRaises | helper.py:211 | a record whose padded time is not a timetable time makes the call raise |
| DefaultRecord.Lookup | helper.py:264-267 | looking up a key in a dict fails exactly when the key is absent (KeyError) |
| DefaultRecord.LookupOfDistinct | helper.py:264-267 | in a dict whose keys are pairwise different, each entry is what its key looks up |
| DefaultRecord.DefaultAttendanceRecord | helper.py:255-267 | the keys are `day` and then the keys of the hours 9 to 16, computed from the hours, in that order; `day` holds the given day and every other key a zero count |
| DefaultRecord.HourKeyValue | helper.py:266 | an hour's key reads as `hour * 100` and is left alone by the time padding |
| DefaultRecord.PaddedHourIsRecordKey | helper.py:200-202 | a session time written as the number `hour * 100` (`900` for nine o'clock) comes out of the padding as the hour's key (`0900`), which reads back as the same number, and for the hours 9 to 16 is a key of the default record (helper.py:266) |
| DefaultRecord.HourTimeText | helper.py:200-202 | the decimal text of `hour * 100` (three digits before 10 o'clock, four after) is padded to exactly the four-character key of that hour |
| DefaultRecord.DefaultRecordKeys | helper.py:264-267 | no key of the default record appears twice |
| DefaultRecord.DefaultRecordLookup | helper.py:255-267 | the record gives the day under `day`, 0 under each hourly key from `0900` to `1600`, and KeyError for every other key |

## Left out

- The sqlite store is not modelled: connections, queries, commits and `getColumnNames`/`getTotalNumberOfRecords`. Their results are parameters: a course's schema columns, a student's column, the row count and the `(dayTime, mark)` records.
- The timetable DataFrame's structure is not modelled. Its `to_dict('tight')` index, columns and data are given as `Timetable`.
- pandas `DataFrame` construction is reduced to a header and a list of rows. Excel export (`downloadReport`, `to_excel`) and the save dialog are not modelled.
- tkinter widgets are not modelled: `printTable`'s `table.insert`, `showMessage`, `truncateWidget`. Neither is the data sort in `printTable`.
- cv2 is not modelled: image capture and colour conversion; nor are `loadName`, `getCSV` or `getKnownEncodings`, which only read files and the store.
- Floating point is modelled as exact real arithmetic, and the `.2f` formatting of the overall figure is not modelled.
- `MarkAttendance.MarkAttendance` returns the statement rather than executing it, so duplicate-key store errors are not modelled.
- Builtins.ParseInt: it accepts an optional sign followed by ASCII digits only. Python's `int()` also accepts surrounding whitespace, digit-separating underscores and non-ASCII decimal digits, and those strings are reported as errors here.
- Builtins.AsciiUpper: it upper-cases ASCII letters only; Python's `str.upper` also maps non-ASCII letters.
- WeekDay.GetWeekDay: the separator is a single character. Python's `getWeekDay(date, sep)` also accepts a longer separator string, and raises ValueError on an empty one; `getAttendanceTableFor` only calls it with the default `-` (helper.py:210).
- WeekDay.GetWeekDay: `calendar.day_name` follows the process locale; the model uses the names of the C/English locale, `Monday` to `Sunday`.
- Calendar.WeekdayYear: follows `calendar.weekday` of Python 3.8 and later, which remaps a year outside 1..9999 to `2000 + year % 400`; earlier versions raise ValueError for such a year.
- Percentage.AttendancePercentageFor: the figure is bounded by 0 and 100 only when the `P` count is at most the row count (`Percentage.Consistent`). The store guarantees that, because both are counted in the same table, but the model takes the column and the row count as separate inputs.
