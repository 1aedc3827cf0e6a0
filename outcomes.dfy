/** Optional values, results, and the HTTP error that every handler of the service raises. */
module Outcomes {

  datatype Option<+T> = None | Some(value: T)

  /** A handler's outcome: a value, or the HTTPException it raises. */
  datatype Result<+T> = Ok(value: T) | Err(error: HttpError)

  /** FastAPI's HTTPException: a status code, a detail message and extra response headers. */
  datatype HttpError = HttpError(status: int, detail: string, headers: map<string, string>)

  /** An HTTPException without extra headers, the form almost every raise site uses. */
  function Fail(status: int, detail: string): HttpError
  {
    HttpError(status, detail, map[])
  }

  /** The payload of FastAPI's SuccessResponse: success flag, message. */
  datatype SuccessResponse = SuccessResponse(success: bool, message: string)

  function Success(message: string): SuccessResponse
  {
    SuccessResponse(true, message)
  }
}
