/** Shared wrapper types: an optional value (Java's nullable references) and
    the outcome of an operation that may throw IllegalArgumentException. */
module Common {

  /** A Java reference that may be null. */
  datatype Option<+T> = None | Some(value: T)

  /** Why a call raised IllegalArgumentException in the Java code. */
  datatype Error =
    | InvalidGridSize(size: int)
    | OutOfBounds(row: int, col: int)
    | InvalidCellValue(value: int)
    | InvalidBoardSize(size: int)

  /** Either the call's value or the exception it raised. */
  datatype Result<+T> = Ok(value: T) | Err(error: Error)
}
