/** Failure values shared by the die model, the number parser and the notation parser. */
module Results {

  /** The two ways turning a notation string into a roll can fail. */
  datatype Error =
    | UnrecognizedDie(token: string)   // a die token outside d4, d6, d8, d10, d12, d20, d100
    | InvalidNumber(text: string)      // a captured number that is not an i32

  datatype Option<+T> = None | Some(value: T)

  /** A value or the error that stopped its computation; usable with `:-`. */
  datatype Result<+T> = Ok(value: T) | Err(error: Error) {

    predicate IsFailure() {
      Err?
    }

    function PropagateFailure<U>(): Result<U>
      requires Err?
    {
      Err(error)
    }

    function Extract(): T
      requires Ok?
    {
      value
    }
  }
}
