/** Failures of the evaluator. Each constructor stands for the .NET exception the
    source lets escape to the caller; a `Result` carries either a value or one of them. */
module Errors {

  datatype Error =
    | InvalidCharacter(c: char)               // ArgumentException raised by Parse
    | InvalidNumber(text: string)             // FormatException from decimal.Parse / double.Parse
    | EmptyStack                              // InvalidOperationException from Stack.Pop
    | InvalidCast                             // InvalidCastException from the char-to-Operation cast
    | ParameterCount(expected: nat, got: nat) // ArgumentException raised by Execute
    | MissingParameters(names: seq<string>)   // ArgumentException raised by Execute
    | IndexOutOfRange(index: nat)             // IndexOutOfRangeException from the argument array
    | DivideByZero                            // DivideByZeroException from decimal division

  datatype Result<+T> = Ok(value: T) | Err(error: Error)

  /** The outcome of an operation that returns nothing (a C# `void` that may throw). */
  datatype Status = Done | Failed(error: Error)
}
