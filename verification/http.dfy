/**
 * Request bodies, JSON responses and the two exceptions the handlers can
 * raise. Responses are kept as a status code plus a structured body; how
 * a `User` is serialised is not modelled.
 */
module Http {
  import opened Wrappers
  import opened Users

  /** The request fields the validators name. */
  datatype Field = NameField | EmailField | PasswordField | PhoneField | RoleField

  /** The fields of a register or update request body; absent fields are None. */
  datatype Input = Input(
    name: Option<string>,
    email: Option<string>,
    password: Option<string>,
    phone: Option<string>,
    role: Option<string>)

  /** The body of a login request. */
  datatype Credentials = Credentials(email: Option<string>, password: Option<string>)

  datatype Body =
    | Error(error: string)
    | ValidationErrors(fields: set<Field>)
    | Record(user: User)
    | Records(users: seq<User>)
    | Updated(message: string, user: User)
    | Created(message: string, userId: nat, user: User, apiKey: string)
    | LoggedIn(message: string, userId: nat, apiKey: string)

  datatype Response = Response(status: nat, body: Body)

  const InvalidAuthorisation := Response(401, Error("Invalid authorisation."))
  const Unauthorised := Response(401, Error("Unauthorised."))
  const PermissionDenied := Response(401, Error("You do not have permission to perform this action."))
  const InvalidLogin := Response(401, Error("Invalid login details."))
  const UserDoesNotExist := Response(404, Error("This user does not exist."))
  const InvalidRequest := Response(400, Error("Invalid request."))

  /**
   * A `NotFoundHttpException` carries the model class whose route binding
   * failed (None when there was no model lookup behind it); a validation
   * exception carries the fields that failed.
   */
  datatype Exception = NotFoundHttp(model: Option<string>) | Validation(errors: set<Field>)

  /** What a controller action does: return a response or throw. */
  datatype Outcome = Returned(response: Response) | Threw(exception: Exception)

  /**
   * Stand-in for the framework's `email` rule (RFC 5322 address checking is
   * not modelled): an '@' with at least one character on each side.
   */
  predicate ValidEmail(s: string) {
    exists i :: 0 < i < |s| - 1 && s[i] == '@'
  }
}
