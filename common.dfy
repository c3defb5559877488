/** Values shared by the guess evaluator and the game engine: an optional
    value (Ruby's nil), the errors the engine raises, and a result that is
    either a value or one of those errors. */
module Common {

  /** A value that may be nil. */
  datatype Option<+T> = None | Some(value: T)

  /** The exceptions the engine can raise. */
  datatype GameError =
    | ConfigurationIncomplete    // RuntimeError 'The configuration is incomplete'
    | NoHintsLeft                // RuntimeError 'Oops, no hints left!'
    | NoMethodError(name: string) // a method sent to an object that does not define it
    | TypeError                  // nil used as an Integer operand

  /** Either the value an operation returns or the error it raises. */
  datatype Result<+T> = Success(value: T) | Failure(error: GameError)
}
