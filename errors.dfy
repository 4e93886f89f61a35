/** The ways the bot's core can fail, and the result type that carries them. */
module Errors {

  /** The Python exception classes the core raises. The last four are the
      classes homework.py imports from its exceptions module. */
  datatype Exception =
    | TypeError
    | KeyError
    | ValueError
    | UnknownError
    | NotAuthenticated
    | InternalServerError
    | NoContent

  /** One constructor per place in the core where an exception is raised,
      explicitly or by Python itself (a subscript or a membership test). */
  datatype Failure =
    | BadRequest              // HTTP 400
    | Unauthorized            // HTTP 401
    | ServerError             // HTTP 500
    | EmptyBody               // HTTP 204
    | ResponseNotDict         // the decoded body is not a dict
    | HomeworksMissing        // no `homeworks` key in the body
    | HomeworksNotList        // `homeworks` holds something other than a list
    | HomeworkNotSubscriptable // the homework is not a dict, so `homework['status']` fails
    | StatusMissing           // the homework has no `status` key
    | StatusEmpty             // the status is the empty string
    | StatusUnhashable        // the status is a list or a dict
    | StatusUnknown           // the status is not a key of the verdict table
    | NameMissing             // the homework has no `homework_name` key

  /** The exception class each failure surfaces as. */
  function ExceptionOf(f: Failure): (e: Exception)
    ensures e == TypeError <==>
      f in {ResponseNotDict, HomeworksNotList, HomeworkNotSubscriptable, StatusUnhashable}
    ensures e == KeyError <==> f in {HomeworksMissing, StatusMissing, StatusUnknown, NameMissing}
    ensures e == ValueError <==> f == StatusEmpty
    ensures e in {UnknownError, NotAuthenticated, InternalServerError, NoContent} <==>
      f in {BadRequest, Unauthorized, ServerError, EmptyBody}
  {
    match f
    case BadRequest => UnknownError
    case Unauthorized => NotAuthenticated
    case ServerError => InternalServerError
    case EmptyBody => NoContent
    case ResponseNotDict => TypeError
    case HomeworksMissing => KeyError
    case HomeworksNotList => TypeError
    case HomeworkNotSubscriptable => TypeError
    case StatusMissing => KeyError
    case StatusEmpty => ValueError
    case StatusUnhashable => TypeError
    case StatusUnknown => KeyError
    case NameMissing => KeyError
  }

  datatype Option<+T> = None | Some(value: T)

  /** A value, or the failure that was raised instead of returning it. */
  datatype Result<+T> = Ok(value: T) | Err(failure: Failure)
}
