/**
 * Request-boundary vocabulary shared by the handlers: JavaScript truthiness of
 * request fields and the two ways a handler can fail.
 */
module Http {
  import opened Wrappers

  /** A request field is truthy when it is present and not the empty string. */
  predicate Present(s: Option<string>) {
    s.Some? && s.value != ""
  }

  /**
   * Errors other than `ApiError`: asyncHandler forwards them to Express's
   * default error handler, and the handlers themselves set no status for them.
   */
  datatype Fault =
    | TypeError                  // a property read on `undefined` or `null`
    | JwtError(message: string)  // jwt.verify threw
    | ValidationError            // the ORM's `isEmail` validator rejected the record
    | UniqueConstraintError      // the database refused a duplicate username or email

  /** Why a request was rejected. */
  datatype Failure =
    | ApiError(status: int, message: string)
    | Unhandled(fault: Fault)
}
