/**
 * `getAttendancePercentageFor` (helper.py:123-153) and the overall figure
 * of `printTable` (helper.py:27-32). The student's column of a course table
 * and the table's row count are passed in; floating point is replaced by
 * exact real arithmetic.
 */
module Percentage {
  import opened Builtins
  import opened MarkAttendance

  /** The literal divisor of the overall figure (helper.py:32). */
  const OverallDivisor: real := 8.0

  /** `presentCount / totalRecordsCount * 100`, and 0 where Python raises ZeroDivisionError. */
  function Percentage(present: nat, total: nat): (p: real)
    ensures total == 0 || present == 0 ==> p == 0.0
    ensures 0 < total == present ==> p == 100.0
  {
    if total == 0 then 0.0
    else
      var t := total as real;
      var share := (present as real) / t;
      assert t / t == 1.0;
      assert present == total ==> share == t / t;
      share * 100.0
  }

  /**
   * `getAttendancePercentageFor(id, course)` on the student's column
   * `column` of the course table and the table's row count `totalRecords`.
   */
  function AttendancePercentageFor(column: seq<string>, totalRecords: nat): (p: real)
    ensures totalRecords == 0 ==> p == 0.0
    ensures totalRecords > 0 ==> p * (totalRecords as real) == 100.0 * (CountOf(column, "P") as real)
    ensures CountOf(column, "P") <= totalRecords ==> 0.0 <= p <= 100.0
  {
    PercentageBounds(CountOf(column, "P"), totalRecords);
    Percentage(CountOf(column, "P"), totalRecords)
  }

  lemma PercentageBounds(present: nat, total: nat)
    ensures total > 0 ==> Percentage(present, total) * (total as real) == 100.0 * (present as real)
    ensures 0.0 <= Percentage(present, total)
    ensures present <= total ==> Percentage(present, total) <= 100.0
  {
    if total > 0 {
      var q := (present as real) / (total as real);
      assert q * (total as real) == present as real;
      assert 0.0 <= q;
      if present <= total {
        assert (1.0 - q) * (total as real) >= 0.0;
        assert q <= 1.0;
      }
    }
  }

  /** At a fixed number of sessions, more presences never lower the figure. */
  lemma PercentageMonotone(present1: nat, present2: nat, total: nat)
    requires present1 <= present2
    ensures Percentage(present1, total) <= Percentage(present2, total)
  {
    if total > 0 {
      var t := total as real;
      var q1, q2 := (present1 as real) / t, (present2 as real) / t;
      assert q1 * t == present1 as real && q2 * t == present2 as real;
      assert (q2 - q1) * t >= 0.0;
      assert q1 <= q2;
    }
  }

  /** One more session in which the student was absent never raises the figure. */
  lemma AbsentSessionNeverRaises(present: nat, total: nat)
    requires present <= total
    ensures Percentage(present, total + 1) <= Percentage(present, total)
  {
    if total > 0 {
      AbsentSessionShares(present, total);
    }
  }

  /** One more session in which the student was absent lowers the figure when they had attended at all. */
  lemma AbsentSessionLowers(present: nat, total: nat)
    requires 0 < present <= total
    ensures Percentage(present, total + 1) < Percentage(present, total)
  {
    AbsentSessionShares(present, total);
  }

  /** The shares of `present` in `total` and in `total + 1` sessions. */
  lemma AbsentSessionShares(present: nat, total: nat)
    requires 0 < total && present <= total
    ensures (present as real) / (total as real + 1.0) <= (present as real) / (total as real)
    ensures 0 < present ==> (present as real) / (total as real + 1.0) < (present as real) / (total as real)
  {
    var p, t := present as real, total as real;
    var a, b := p / (t + 1.0), p / t;
    assert a * (t + 1.0) == p && b * t == p;
    assert a * (t + 1.0) == a * t + a && (b - a) * t == b * t - a * t;
    SignOfScaled(a, t + 1.0);
    SignOfScaled(b - a, t);
  }

  /** One more session in which the student was present never lowers the figure. */
  lemma PresentSessionNeverLowers(present: nat, total: nat)
    requires present <= total
    ensures Percentage(present, total) <= Percentage(present + 1, total + 1)
  {
    PresentSessionShares(present, total);
  }

  /**
   * One more session in which the student was present raises the figure
   * whenever it was below 100: some session was missed, or none held yet.
   */
  lemma PresentSessionRaises(present: nat, total: nat)
    requires present < total || present == total == 0
    ensures Percentage(present, total) < Percentage(present + 1, total + 1)
  {
    PresentSessionShares(present, total);
  }

  /** The shares before and after one more attended session. */
  lemma PresentSessionShares(present: nat, total: nat)
    requires present <= total
    ensures total > 0 ==> (present as real) / (total as real) <= (present as real + 1.0) / (total as real + 1.0)
    ensures total > 0 && present < total ==>
      (present as real) / (total as real) < (present as real + 1.0) / (total as real + 1.0)
    ensures 0.0 < (present as real + 1.0) / (total as real + 1.0)
  {
    var p, t := present as real, total as real;
    var a := (p + 1.0) / (t + 1.0);
    assert a * (t + 1.0) == p + 1.0;
    assert (1.0 - a) * (t + 1.0) == (t + 1.0) - a * (t + 1.0);
    SignOfScaled(1.0 - a, t + 1.0);
    SignOfScaled(a, t + 1.0);
    if total > 0 {
      var b := p / t;
      assert b * t == p;
      // a * t == p + 1 - a, so (a - b) * t == 1 - a, which is not negative
      assert a * (t + 1.0) == a * t + a && (a - b) * t == a * t - b * t;
      SignOfScaled(a - b, t);
    }
  }

  /** A real scaled by a positive factor keeps its sign. */
  lemma SignOfScaled(x: real, t: real)
    requires t > 0.0
    ensures x * t >= 0.0 ==> x >= 0.0
    ensures x * t > 0.0 ==> x > 0.0
  {
  }

  /** A column with one more `P` over one more session never has a lower figure. */
  lemma PresentFigureStep(before: seq<string>, total: nat, after: seq<string>)
    requires CountOf(before, "P") <= total && CountOf(after, "P") == CountOf(before, "P") + 1
    ensures AttendancePercentageFor(before, total) <= AttendancePercentageFor(after, total + 1)
  {
    PresentSessionNeverLowers(CountOf(before, "P"), total);
  }

  /** A column with the same `P` count over one more session never has a higher figure. */
  lemma AbsentFigureStep(before: seq<string>, total: nat, after: seq<string>)
    requires CountOf(before, "P") <= total && CountOf(after, "P") == CountOf(before, "P")
    ensures AttendancePercentageFor(after, total + 1) <= AttendancePercentageFor(before, total)
  {
    AbsentSessionNeverRaises(CountOf(before, "P"), total);
  }

  /** A column with one more `P` over one more session has a higher figure, unless it stood at 100. */
  lemma PresentFigureRaises(before: seq<string>, total: nat, after: seq<string>)
    requires CountOf(before, "P") < total || CountOf(before, "P") == total == 0
    requires CountOf(after, "P") == CountOf(before, "P") + 1
    ensures AttendancePercentageFor(before, total) < AttendancePercentageFor(after, total + 1)
  {
    PresentSessionRaises(CountOf(before, "P"), total);
  }

  /** A column with the same non-zero `P` count over one more session has a lower figure. */
  lemma AbsentFigureLowers(before: seq<string>, total: nat, after: seq<string>)
    requires 0 < CountOf(before, "P") <= total && CountOf(after, "P") == CountOf(before, "P")
    ensures AttendancePercentageFor(after, total + 1) < AttendancePercentageFor(before, total)
  {
    AbsentSessionLowers(CountOf(before, "P"), total);
  }

  /** A session the student attended, added to their column, never lowers their figure. */
  lemma PresentColumnStep(column: seq<string>)
    requires CountOf(column, "P") <= |column|
    ensures AttendancePercentageFor(column, |column|) <= AttendancePercentageFor(column + ["P"], |column| + 1)
  {
    CountOfAppend(column, "P", "P");
    PresentFigureStep(column, |column|, column + ["P"]);
  }

  /** A session the student missed, added to their column, never raises their figure. */
  lemma AbsentColumnStep(column: seq<string>, mark: string)
    requires CountOf(column, "P") <= |column| && mark != "P"
    ensures AttendancePercentageFor(column + [mark], |column| + 1) <= AttendancePercentageFor(column, |column|)
  {
    CountOfAppend(column, mark, "P");
    AbsentFigureStep(column, |column|, column + [mark]);
  }

  /**
   * Recording one more session for a course (one row of `markAttendance`,
   * and so one more row in the table) adds one to the student's `P` count
   * exactly when the student was present. The figure then never falls for
   * a present student and never rises for an absent one, and it moves
   * strictly except where it already stands at 100 or at 0.
   */
  lemma SessionMovesPercentage(column: seq<string>, student: string, students: seq<string>)
    requires CountOf(column, "P") <= |column|
    ensures var after := column + [MarkFor(student, students)];
      CountOf(after, "P") == CountOf(column, "P") + (if student in students then 1 else 0)
    ensures var after := column + [MarkFor(student, students)];
      (student in students ==> AttendancePercentageFor(column, |column|) <= AttendancePercentageFor(after, |after|))
      && (student !in students ==> AttendancePercentageFor(after, |after|) <= AttendancePercentageFor(column, |column|))
    ensures var after := column + [MarkFor(student, students)];
      (student in students && (CountOf(column, "P") < |column| || |column| == 0) ==>
        AttendancePercentageFor(column, |column|) < AttendancePercentageFor(after, |after|))
      && (student !in students && 0 < CountOf(column, "P") ==>
        AttendancePercentageFor(after, |after|) < AttendancePercentageFor(column, |column|))
  {
    var after := column + [MarkFor(student, students)];
    CountOfAppend(column, MarkFor(student, students), "P");
    if student in students {
      PresentFigureStep(column, |column|, after);
      if CountOf(column, "P") < |column| || |column| == 0 {
        PresentFigureRaises(column, |column|, after);
      }
    } else {
      AbsentFigureStep(column, |column|, after);
      if 0 < CountOf(column, "P") {
        AbsentFigureLowers(column, |column|, after);
      }
    }
  }

  /** One course's input to the overall figure: the student's column and the row count. */
  datatype CourseColumn = CourseColumn(column: seq<string>, totalRecords: nat)

  predicate Consistent(c: CourseColumn)
  {
    CountOf(c.column, "P") <= c.totalRecords
  }

  /** `percentageSum` after the loop of helper.py:28-29 has seen `courses`. */
  function SumOfPercentages(courses: seq<CourseColumn>): real
    decreases |courses|
  {
    if |courses| == 0 then 0.0
    else
      var last := courses[|courses| - 1];
      SumOfPercentages(courses[..|courses| - 1]) + AttendancePercentageFor(last.column, last.totalRecords)
  }

  /** The sum of per-course figures lies between 0 and 100 per course. */
  lemma {:induction false} SumOfPercentagesBounds(courses: seq<CourseColumn>)
    requires forall i :: 0 <= i < |courses| ==> Consistent(courses[i])
    ensures 0.0 <= SumOfPercentages(courses) <= 100.0 * (|courses| as real)
    decreases |courses|
  {
    if |courses| > 0 {
      SumOfPercentagesBounds(courses[..|courses| - 1]);
    }
  }

  /**
   * The overall figure of `printTable`: the per-course figures summed over
   * `courses` and divided by the literal 8, whatever the number of courses.
   */
  method OverallPercentage(courses: seq<CourseColumn>) returns (figure: real)
    ensures figure * OverallDivisor == SumOfPercentages(courses)
    ensures (forall i :: 0 <= i < |courses| ==> Consistent(courses[i])) ==>
      0.0 <= figure <= 12.5 * (|courses| as real)
  {
    var percentageSum := 0.0;
    for i := 0 to |courses|
      invariant percentageSum == SumOfPercentages(courses[..i])
    {
      assert courses[..i + 1][..i] == courses[..i];
      percentageSum := percentageSum + AttendancePercentageFor(courses[i].column, courses[i].totalRecords);
    }
    assert courses[..|courses|] == courses;
    figure := percentageSum / OverallDivisor;
    if forall i :: 0 <= i < |courses| ==> Consistent(courses[i]) {
      SumOfPercentagesBounds(courses);
    }
  }

  /** With eight consistent courses the overall figure is a mean and stays within 0..100. */
  lemma EightCoursesGiveAMean(courses: seq<CourseColumn>)
    requires |courses| == 8
    requires forall i :: 0 <= i < |courses| ==> Consistent(courses[i])
    ensures 0.0 <= SumOfPercentages(courses) / OverallDivisor <= 100.0
  {
    SumOfPercentagesBounds(courses);
  }
}
