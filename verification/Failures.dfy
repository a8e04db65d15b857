/** The ways a run of the interpreter stops abnormally, and a failure-compatible
    result type carrying them. Each error stands for the .NET exception the
    CSBasic interpreter would raise at that point; none of them is caught, so each
    one ends the run. */
module Failures {

  datatype Error =
    /** Dequeue on an empty token queue (every Peek is guarded by a count check) */
    | EmptyQueue
    /** a VAR token naming a variable that was never assigned */
    | UndefinedVariable(name: string)
    /** integer division by zero */
    | DivideByZero
    /** int.Parse of a value outside the 32-bit range, or int.MinValue / -1 */
    | Overflow
    /** int.Parse of a text that is not an integer */
    | BadNumber(text: string)
    /** Random.Next with a negative bound */
    | NegativeRandomBound(bound: int)
    /** a source line without the space that separates label and statement */
    | MissingSpace(line: string)
    /** SortedList.Add with a label that is already in the table */
    | DuplicateLabel(key: int)
    /** the debug assertion that the token after LET's variable is "=" */
    | LetWithoutEquals
    /** a fetch of the line at a negative position */
    | LineIndexOutOfRange(index: int)

  datatype Result<+T> = Ok(value: T) | Fail(error: Error) {

    predicate IsFailure() {
      Fail?
    }

    function PropagateFailure<U>(): Result<U>
      requires Fail?
    {
      Fail(error)
    }

    function Extract(): T
      requires Ok?
    {
      value
    }
  }
}
