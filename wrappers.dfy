/** Optional values, results and the HTTP exceptions the services throw. */
module Wrappers {

  /** A value that may be missing: JavaScript's `null` / `undefined`. */
  datatype Option<+T> = None | Some(value: T)

  /** The outward error signals of the NestJS services (the exception classes). */
  datatype HttpError =
    | NotFound(message: string)
    | Forbidden(message: string)
    | InternalServerError(message: string)

  /** Either a returned value or a thrown exception. */
  datatype Result<+R> = Ok(value: R) | Err(error: HttpError)

  /**
   * The outcome of asking a CASL ability `throwUnlessCan(action, subject)`:
   * it passes, throws a `ForbiddenError`, or fails with some other error.
   */
  datatype Permission = Allowed | Denied(message: string) | Failed(message: string)

  /** A like, a dislike or neither (`LikeStatusEnums`). */
  datatype LikeStatus = NoneStatus | Like | Dislike
}
