/** Failure-compatible wrappers and the error conditions that helper.py can raise. */
module Outcomes {

  datatype Option<+T> = None | Some(value: T) {
    predicate IsFailure() { None? }

    function PropagateFailure<U>(): Option<U>
      requires None?
    {
      None
    }

    function Extract(): T
      requires Some?
    {
      value
    }
  }

  /** The exceptions the modelled code raises, one constructor per raising site. */
  datatype Error =
    /** `a, b, c = s.split(sep)` with a split that did not give three fields (ValueError) */
    | WrongFieldCount(found: nat)
    /** `int(s)` on a field that is not a decimal integer (ValueError) */
    | NotAnInteger(text: string)
    /** `datetime.date(year, month, day)` rejects the month or the day (ValueError, or OverflowError for an out-of-range int) */
    | InvalidDate(year: int, month: int, day: int)
    /** `timeTableWeekDays.index(name)` finds no such weekday (ValueError) */
    | WeekdayNotInTimetable(weekday: string)
    /** `timeTableTimes.index(time)` finds no such time slot (ValueError) */
    | TimeNotInTimetable(time: string)
    /** `timeTableClasses[row][column]` is out of range (IndexError) */
    | ClassCellMissing(row: nat, column: nat)

  datatype Result<+T> = Ok(value: T) | Err(error: Error) {
    predicate IsFailure() { Err? }

    function PropagateFailure<U>(): Result<U>
      requires Err?
    {
      Err(error)
    }

    function Extract(): T
      requires Ok?
    {
      value
    }
  }
}
