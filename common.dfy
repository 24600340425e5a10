/** Shared vocabulary of the transaction model: optional values, results,
    the file-system content types and the errors the manager raises. */
module Common {

  datatype Option<+T> = None | Some(value: T)

  datatype Result<+T, +E> = Ok(value: T) | Err(error: E)

  newtype byte = x: int | 0 <= x < 256

  /** A path as the program spells it; paths are compared as strings. */
  type Path = string

  /** The bytes of one file. */
  type Content = seq<byte>

  /** The protected part of the file system: path to file contents. */
  type Files = map<Path, Content>

  /** What the manager's callers can observe as a raised exception. */
  datatype Error =
    | StateConflict          // RuntimeError: begin while active, or add/commit/rollback while idle
    | JournalWriteFailed     // the journal file could not be opened or written
    | JournalDeleteFailed    // the journal file could not be unlinked
    | WorkFailed(reason: string)  // the guarded work raised this
    | WorkInterrupted        // the guarded work raised past `except Exception` (KeyboardInterrupt, SystemExit)
}
