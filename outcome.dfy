/** The exceptions the modelled Python code raises, as values. */
module Outcome {

  datatype Error =
    | IndexError                   // `lines[-1]` on an empty list
    | ValueError                   // `list.remove(x)` with `x` not in the list
    | SyntaxError(source: string)  // `ast.parse` rejects its input
    | RaisedException(arg: string) // `raise Exception(arg)`

  datatype Result<T> = Success(value: T) | Failure(error: Error)

  datatype Option<T> = None | Some(value: T)
}
