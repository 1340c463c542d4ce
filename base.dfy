/** Option, Result and the exceptions the core raises, as values. */
module Base {

  datatype Option<+T> = None | Some(value: T)

  /** The conditions the PHP code signals by throwing. */
  datatype Error =
    /** `InvalidArgumentException` thrown by the Version constructor */
    | InvalidVersion(message: string)
    /** `InvalidArgumentException` thrown by the Series constructor */
    | InvalidSeries(message: string)
    /** `RepositoryError` thrown by a repository adapter */
    | RepositoryError(message: string)
    /** `$n++` on a PHP int at PHP_INT_MAX yields a float whose text is no
        version number; the rebuilt Version then throws. `number` is the
        version that was being incremented. */
    | IncrementOverflow(number: string)

  datatype Result<+T> = Success(value: T) | Failure(error: Error)
}
