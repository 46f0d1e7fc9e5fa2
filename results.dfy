/** Failure-carrying result types shared by the modules of this model. */
module Results {

  /** A value that may be absent (JavaScript `null`/`undefined`, Python `None`). */
  datatype Option<+T> = None | Some(value: T)

  /** The verdict of a fail-fast check: it passes, or it stops at its first failure. */
  datatype Outcome<+E> = Pass | Fail(error: E)
}
