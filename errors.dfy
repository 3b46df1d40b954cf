/** The error values of src/errors.rs, with the storage engine's failures
    named by what went wrong rather than by their text. */
module Errors {

  /** Why the storage engine refused an operation. */
  datatype StorageError =
    | NoSuchTable      // the `metadata` table has not been created
    | CannotOpen       // the database file could not be opened
    | CreateFailed     // the `CREATE TABLE` statement failed
    | InsertRejected   // the engine refused a row (disk full, locked, ...)
    | BeginFailed      // a transaction could not be started
    | CommitFailed     // a transaction could not be committed

  /** `AppError`. The variants that wrap a foreign error carry no payload. */
  datatype AppError =
    | Database(cause: StorageError)
    | Io
    | Serialization
    | ExifTool(message: string)
    | Config(message: string)
    | Processing(message: string)
    | Utf8
}
