/** Absence, failure and the errors the modelled code can raise. */
module Results {

  /** A row that may be missing: Eloquent's `first()` returning a model or null. */
  datatype Option<+T> = None | Some(value: T)

  /** The exceptions the modelled code can throw. */
  datatype Error =
    | DuplicateKey                  // an INSERT whose primary key is already taken
    | PersonalAccessClientNotFound  // no personal access client row exists

  /** A statement that either completes or throws. */
  datatype Outcome = Pass | Fail(error: Error)

  /** A value or the exception thrown instead. */
  datatype Result<+T> = Ok(value: T) | Err(error: Error)
}
