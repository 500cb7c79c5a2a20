/** Failures of the usu pipeline.

    Python raises three kinds of exception out of the lexer and the parser:
    `UsuDecodeError` for the rules the code checks on purpose, the
    `ValueError` that `int()` or `float()` raises on a malformed number, and
    the `IndexError` that escapes when a cursor runs past the end of the
    source text or of the token list. All become explicit error values
    here, and a failing step passes its error on unchanged, as an uncaught
    exception does. */
module Errors {

  datatype DecodeError =
    // UsuDecodeError raised by the lexer
    | UnterminatedQuote
    // ValueError raised by int() or float() on the text of a number
    | MalformedNumber(text: string)
    // UsuDecodeError raised by the parser
    | UnexpectedClose
    | InvalidRoot
    | ExpectedKey
    | MissingValue
    | DuplicateKey
    | KeyInList
    // an IndexError escaping from an index past the end
    | IndexOutOfRange

  datatype Result<+T> = Ok(value: T) | Err(error: DecodeError) {
    predicate IsFailure() { Err? }

    function PropagateFailure<U>(): Result<U>
      requires Err?
    {
      Err(error)
    }

    function Extract(): T
      requires Ok?
    {
      value
    }
  }
}
