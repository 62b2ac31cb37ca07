/** Values shared by every layer of the URL shortener: results, timestamps and
    the Go error values the repository layer produces or passes through. */
module Common {

  datatype Option<T> = None | Some(value: T)

  /** A Go `(value, error)` pair in which exactly one half is meaningful. */
  datatype Result<T> = Ok(value: T) | Err(error: Error)

  /** An abstract timestamp in seconds. What the wall clock reads is outside the model. */
  type Time = nat

  /** Failures reported by database/sql and the Postgres driver. */
  datatype DbError =
    | NoRows            // sql.ErrNoRows
    | UniqueViolation   // the UNIQUE constraint on urls.short_code
    | ConnFailure       // timeout, lost connection, broken cursor
    | ScanFailure       // a row that cannot be scanned into the Go struct

  /** Failures reported by the Redis client. */
  datatype RedisError =
    | Nil               // redis.Nil: the key is absent or has expired
    | Unreachable       // any transport failure

  /** Go error values as the core builds them. */
  datatype Error =
    | NotFound                               // repository.ErrNotFound
    | Db(db: DbError)                        // a database/sql error returned as it is
    | Redis(redis: RedisError)               // a Redis client error returned as it is
    | Message(text: string)                  // an error that wraps nothing (no %w)
    | Wrapped(prefix: string, cause: Error)  // fmt.Errorf("<prefix>: %w", cause)

  /** errors.Is: `e` is `target` or wraps it somewhere down its chain. */
  predicate Is(e: Error, target: Error) {
    e == target || (e.Wrapped? && Is(e.cause, target))
  }
}
