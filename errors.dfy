/** The error type every fallible operation of the document layer returns (rust/src/doc/error.rs). */
module Errors {
  import opened Wrappers

  datatype DocError =
    | InvalidOperation(message: string)
    | DecodingError(message: string)
    | EncodingError(message: string)
    | ValidationError(message: string)
    | StateError(message: string)
    | BlockNotFound(message: string)
    | MergeError(message: string)
    | UpdateDecodingFailed(message: string)
    | StateEncodingFailed(message: string)

  type Outcome<T> = Result<T, DocError>
}
