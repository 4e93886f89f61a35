/** The part of `get_api_answer` that runs once the HTTP response has arrived:
    the branch on its status code. Sending the request and decoding the body
    are not part of this model; the decoded body is an input. */
module Api {
  import opened Json
  import opened Errors

  /** What `get_api_answer` does with a status code: raise, or go on to
      return the decoded body. */
  datatype Branch = Raise(failure: Failure) | ReturnBody

  /** The if/elif chain on the status code. Exactly four codes raise, each
      with its own exception class; every other code, 200 or not, returns
      the body. */
  function ClassifyStatusCode(code: int): (b: Branch)
    ensures b.ReturnBody? <==> code != 400 && code != 401 && code != 500 && code != 204
    ensures b.Raise? && ExceptionOf(b.failure) == UnknownError <==> code == 400
    ensures b.Raise? && ExceptionOf(b.failure) == NotAuthenticated <==> code == 401
    ensures b.Raise? && ExceptionOf(b.failure) == InternalServerError <==> code == 500
    ensures b.Raise? && ExceptionOf(b.failure) == NoContent <==> code == 204
  {
    if code == 400 then Raise(BadRequest)
    else if code == 401 then Raise(Unauthorized)
    else if code == 500 then Raise(ServerError)
    else if code == 204 then Raise(EmptyBody)
    else ReturnBody
  }

  /** `get_api_answer` given the response's status code and decoded body. */
  function GetApiAnswer(code: int, body: Value): (r: Result<Value>)
    ensures r.Ok? <==> code !in {400, 401, 500, 204}
    ensures r.Ok? ==> r.value == body
    ensures r.Err? ==> ClassifyStatusCode(code) == Raise(r.failure)
  {
    match ClassifyStatusCode(code)
    case Raise(f) => Err(f)
    case ReturnBody => Ok(body)
  }
}
