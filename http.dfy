/**
 * What a request handler hands back to the web framework: a value (the JSON body,
 * or the target of a redirect), or an `HTTPException` with its status code.
 */
module Http {

  const BadRequest := 400
  const Unauthorized := 401
  const Forbidden := 403
  const NotFound := 404
  /** The framework's answer when a handler raises an exception it does not catch. */
  const InternalServerError := 500

  /**
   * `OutOfCandidates` stands for a generation loop that ran through every
   * candidate identifier it was supplied without finding a free one; the
   * program itself would keep drawing random identifiers.
   */
  datatype Response<+T> = Ok(value: T) | HttpError(status: int) | OutOfCandidates
}
