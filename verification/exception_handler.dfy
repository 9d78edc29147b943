/** How exceptions that escape a controller become responses. */
module ExceptionHandler {
  import opened Wrappers
  import opened Http

  /** The class name a failed `User` route binding reports. */
  const UserModelClass := "App\\Models\\User"

  /**
   * The `renderable` callback. It is typed to not-found exceptions, so it
   * answers only those (None leaves an exception to the framework): a
   * failed `User` binding becomes 404, any other not-found 400.
   */
  function Render(e: Exception): (r: Option<Response>)
    ensures r.Some? <==> e.NotFoundHttp?
    ensures r.Some? && e.model == Some(UserModelClass) ==> r.value == UserDoesNotExist
    ensures r.Some? && e.model != Some(UserModelClass) ==> r.value == InvalidRequest
  {
    match e
    case NotFoundHttp(model) =>
      if model == Some(UserModelClass) then Some(UserDoesNotExist) else Some(InvalidRequest)
    case Validation(_) => None
  }

  /**
   * The response sent for an exception: the callback's when it answers,
   * else the framework's default, which renders a validation exception as
   * 422 with the failed fields.
   */
  function Respond(e: Exception): (r: Response)
    ensures e.NotFoundHttp? ==> r.status == (if e.model == Some(UserModelClass) then 404 else 400)
    ensures e.NotFoundHttp? ==> Render(e) == Some(r)
    ensures e.Validation? ==> r == Response(422, ValidationErrors(e.errors))
  {
    match Render(e)
    case Some(resp) => resp
    case None => Response(422, ValidationErrors(e.errors))
  }

  /** The response of a controller action, once thrown exceptions are rendered. */
  function Finish(out: Outcome): Response {
    match out
    case Returned(resp) => resp
    case Threw(e) => Respond(e)
  }
}
