/** The exceptions the connector raises, and the result types that carry them. */
module Errors {

  datatype Error =
    /** `Column(...)` with a type outside the allowed list (a ValueError). */
    | InvalidColumnType(typeName: string)
    /** A stash PUT failed with a non-413 error, or with 413 at chunk size 1. */
    | PutRowsFailed(path: string, text: string)
    /** `GET tables` answered with an HTTP error. */
    | ListTablesFailed(text: string)
    /** `GET tables` succeeded but its body had no "data" field. */
    | TableDataMissing(status: int, text: string)
    /** `POST tables` answered with an HTTP error. */
    | CreateFailed(tableName: string, text: string)
    /** `PUT tables/{id}` answered with an HTTP error. */
    | OverwriteFailed(tableId: string, text: string)
    /** A configured stream whose destination sync mode is not overwrite. */
    | UnsupportedSyncMode(mode: string)

  datatype Result<T> = Ok(value: T) | Err(error: Error)

  /** The outcome of an operation that returns nothing or raises. */
  datatype Outcome = Pass | Fail(error: Error)

  datatype Option<T> = None | Some(value: T)
}
