/** Option and the two HTTP errors the routes raise on purpose. */
module Outcomes {

  datatype Option<+T> = None | Some(value: T)

  /** 404 when a referenced record is missing, 400 when the request is refused. */
  datatype HttpError = NotFound | BadRequest
  {
    function Status(): int
    {
      match this
      case NotFound => 404
      case BadRequest => 400
    }
  }

  datatype Result<+T> = Ok(value: T) | Err(error: HttpError)
}
