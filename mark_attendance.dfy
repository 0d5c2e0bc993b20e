/**
 * `markAttendance` (helper.py:69-97): the column and value lists of one
 * session row of a course table and the INSERT statement built from them.
 * The column names come from the table's schema and are passed in; running
 * the statement against the store is not part of this model.
 */
module MarkAttendance {
  import opened Builtins

  /** The session-key column every course table starts with. */
  const DayTimeColumn: string := "dayTime"

  /** A value or a column name written as an SQL string literal. */
  function Quote(s: string): string
  {
    "'" + s + "'"
  }

  /** The mark a student column receives: `P` when the student is present. */
  function MarkFor(column: string, students: seq<string>): (m: string)
    ensures m == "P" <==> column in students
    ensures m == "A" <==> column !in students
  {
    if column in students then "P" else "A"
  }

  /** `columns[1:]`: the columns after the session key, empty for an empty schema. */
  function StudentColumns(columns: seq<string>): (r: seq<string>)
    ensures |r| == if |columns| == 0 then 0 else |columns| - 1
    ensures forall i :: 0 <= i < |r| ==> r[i] == columns[i + 1]
  {
    if |columns| == 0 then [] else columns[1..]
  }

  /**
   * `markAttendance(students, course, dayTime)` for a course table whose
   * schema lists `columns`: the session key goes into `dayTime`, and every
   * later column gets `'P'` exactly when its name is among `students`.
   */
  method MarkAttendance(students: seq<string>, course: string, dayTime: string, columns: seq<string>)
    returns (columnList: seq<string>, valueList: seq<string>, query: string)
    ensures |columnList| == |valueList| == |StudentColumns(columns)| + 1
    ensures columnList[0] == DayTimeColumn && valueList[0] == Quote(dayTime)
    ensures forall i :: 1 <= i < |columnList| ==> i < |columns| && columnList[i] == Quote(columns[i])
    ensures forall i :: 1 <= i < |valueList| ==> i < |columns| && valueList[i] == Quote(MarkFor(columns[i], students))
    ensures forall i :: 1 <= i < |valueList| ==> (valueList[i] == "'P'" <==> columns[i] in students)
    ensures students == [] ==> forall i :: 1 <= i < |valueList| ==> valueList[i] == "'A'"
    ensures query == "INSERT INTO " + AsciiUpper(course) + " (" + Join(columnList, ", ")
      + ") VALUES (" + Join(valueList, ",") + ");"
  {
    var studentColumns := StudentColumns(columns);
    columnList := [DayTimeColumn];
    valueList := [Quote(dayTime)];
    for k := 0 to |studentColumns|
      invariant |columnList| == |valueList| == k + 1
      invariant columnList[0] == DayTimeColumn && valueList[0] == Quote(dayTime)
      invariant forall i :: 1 <= i <= k ==> columnList[i] == Quote(studentColumns[i - 1])
      invariant forall i :: 1 <= i <= k ==> valueList[i] == Quote(MarkFor(studentColumns[i - 1], students))
    {
      var column := studentColumns[k];
      if column in students {
        columnList := columnList + [Quote(column)];
        valueList := valueList + ["'P'"];
      } else {
        columnList := columnList + [Quote(column)];
        valueList := valueList + ["'A'"];
      }
    }
    assert Quote("P") == "'P'" && Quote("A") == "'A'" && "'A'" != "'P'";
    var columnsString, valuesString := Join(columnList, ", "), Join(valueList, ",");
    query := "INSERT INTO " + AsciiUpper(course) + " (" + columnsString + ") VALUES (" + valuesString + ");";
  }
}
