/** Vocabulary shared by the blog backend's data layer and request handlers:
    optional values, handler results and the errors that reach the client. */
module Base {

  datatype Option<+T> = None | Some(value: T)

  /** A server-assigned `created_at` value (the database's `now()`); opaque here. */
  type Timestamp(==)

  /** Why the database refused a statement. No handler catches these, so each
      one reaches the client as an internal server error. */
  datatype Failure =
    | UniqueViolation      // a UNIQUE or PRIMARY KEY constraint was violated
    | ForeignKeyViolation  // a FOREIGN KEY constraint was violated
    | NegativeLimit        // LIMIT was given a negative row count

  /** The outcomes a handler can end in other than success. */
  datatype Error =
    | NotFound                         // HTTPException(404)
    | Forbidden                        // HTTPException(403)
    | StorageFailure(failure: Failure) // an uncaught database error

  datatype Result<+T> = Ok(value: T) | Err(error: Error)

  function Min(a: int, b: int): (m: int)
    ensures m <= a && m <= b && (m == a || m == b)
  {
    if a <= b then a else b
  }

  /** The HTTP status with which an error reaches the client. */
  function StatusCode(e: Error): (code: int)
    ensures code == 404 <==> e == NotFound
    ensures code == 403 <==> e == Forbidden
    ensures code == 500 <==> e.StorageFailure?
  {
    match e
    case NotFound => 404
    case Forbidden => 403
    case StorageFailure(_) => 500
  }
}
