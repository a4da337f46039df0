/**
 * The error values of the layered implementation: the domain error
 * constants of internal/domain/entity/errors.go, plus the wrapped failures
 * of the collaborators (database driver, cache client, token signer) that
 * the Go code passes through with fmt.Errorf and that compare unequal to
 * every domain constant.
 */
module Errors {

  /** What the PostgreSQL driver reports when a statement fails. */
  datatype DbFailure =
    | Unreachable          // connection lost or refused
    | UniqueViolation      // UNIQUE(username), UNIQUE(email)
    | ForeignKeyViolation  // REFERENCES users(id) / blogs(id)
    | CheckViolation       // CHECK (follower_id != following_id)
    | ValueTooLong         // a VARCHAR(n) column given more than n characters
    | NegativeLimitOrOffset // LIMIT or OFFSET below zero

  /** Why the cache adapter could not answer a lookup or a write. */
  datatype CacheFailure =
    | NotAvailable         // nil *RedisCache receiver
    | NotInCache           // redis.Nil: no such key
    | ConnectionError      // the Redis server did not answer
    | DecodeError          // the stored JSON is not of the requested kind

  datatype Err =
    // user errors
    | InvalidUsername
    | InvalidEmail
    | InvalidDisplayName
    | UserNotFound
    | UserAlreadyExists
    | CannotFollowSelf
    | Unauthorized
    // blog errors
    | InvalidTitle
    | InvalidBody
    | InvalidAuthor
    | BlogNotFound
    | NotBlogOwner
    // general errors
    | InvalidID
    // wrapped collaborator failures
    | StoreError(cause: DbFailure)
    | CacheError(reason: CacheFailure)
    | TokenError

  /** A value or the error that replaced it, as Go's (T, error) pairs. */
  datatype Result<+T> = Ok(value: T) | Fail(error: Err)
}
