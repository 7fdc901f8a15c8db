/** Error values and failure-carrying results of the matrix helpers.
    Every Go function of the library that can fail returns an error, beside its value when it
    has one. A `(value, error)` pair with exactly one of the two non-nil is a `Result` here,
    and an error-only return is an `Option`. */
module Errors {

  /** One constructor per error the library reports. */
  datatype Error =
    | InvalidRows(rows: int)                    // "invalid number of rows: %d"
    | InvalidCols(cols: int)                    // "invalid number of columns: %d"
    | InvalidMatrix                             // "invalid matrix supplied: %v" (a nil matrix)
    | RowCountExceeded(count: int)              // "row count exceeds matrix rows: %d"
    | ColCountExceeded(count: int)              // "column count exceeds matrix columns: %d"
    | NotSquare                                 // "Matrix must be square"
    | NotSymmetric(i: nat, j: nat, transposed: real, original: real)  // "Matrix not symmetric (%d, %d): ..."
    | CountMismatch(vecLen: nat, cells: nat)    // "elements count mismatch: Vec: %d, Matrix: %d"

  datatype Result<T> = Success(value: T) | Failure(error: Error)

  datatype Option<T> = None | Some(value: T)
}
