/** The failures the calculator can end in, and a Result type usable with `:-`. */
module Results {

  /** One tag per exception the evaluator can throw. */
  datatype Error =
    | UnknownSymbol(symbol: char)  // the operation table has no entry for the character
    | NumberTooLarge               // a digit run does not fit a 32-bit signed integer
    | EmptySequence                // the weakest node was asked of an empty node sequence
    | DivideByZero                 // a division whose right operand is zero
    | DivisionOverflow             // the smallest 32-bit integer divided by -1

  datatype Result<+T> = Success(value: T) | Failure(error: Error) {

    predicate IsFailure() {
      Failure?
    }

    function PropagateFailure<U>(): Result<U>
      requires Failure?
    {
      Failure(error)
    }

    function Extract(): T
      requires Success?
    {
      value
    }
  }

  datatype Option<+T> = None | Some(value: T)
}
