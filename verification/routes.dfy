/**
 * The route table and the request pipeline around the controllers: the
 * api-key middleware on every route but login, route binding of the
 * `{user}` parameter, the controller action, and exception rendering.
 */
module Routes {
  import opened Wrappers
  import opened Users
  import opened Http
  import opened AuthCheck
  import UserPolicy
  import ExceptionHandler
  import UserController
  import UserAuthController
  import Storage

  datatype Endpoint =
    | CurrentUser                          // GET  /user
    | LoginRoute(credentials: Credentials) // POST user/login
    | RegisterRoute(input: Input)          // POST user/register
    | GetRoute(id: int)                    // GET  user/{user}
    | IndexRoute                           // GET  users
    | UpdateRoute(id: int, input: Input)   // POST user/{user}/update

  /** A request: the bearer token, if any, and the route it hits with its body. */
  datatype Request = Request(bearer: Option<string>, endpoint: Endpoint)

  /** Every route except login sits behind the api-key middleware. */
  predicate BehindApiKey(e: Endpoint)
    ensures BehindApiKey(e) || e.LoginRoute?
    ensures e.LoginRoute? ==> !BehindApiKey(e)
    ensures TargetId(e).Some? ==> BehindApiKey(e)
  {
    !e.LoginRoute?
  }

  /** The `{user}` path parameter of the routes that take one. */
  function TargetId(e: Endpoint): (r: Option<int>)
    ensures r.Some? <==> e.GetRoute? || e.UpdateRoute?
    ensures r.Some? ==> r.value == e.id
  {
    match e
    case GetRoute(id) => Some(id)
    case UpdateRoute(id, _) => Some(id)
    case _ => None
  }

  /** Either the request reaches its controller, with its actor and bound target, or it is answered early. */
  datatype Admission = Admitted(actor: Option<User>, target: Option<User>) | Halted(response: Response)

  /**
   * Everything that happens before a controller runs: the api-key check
   * first, then route binding of `{user}`, whose failure is a not-found
   * exception for the `User` model and is rendered as 404.
   */
  function Admit(users: Table, req: Request): (a: Admission)
    ensures !BehindApiKey(req.endpoint) ==> a == Admitted(None, None)
    ensures BehindApiKey(req.endpoint) && Authenticate(users, req.bearer).Unauthenticated? ==>
      a == Halted(InvalidAuthorisation)
    ensures BehindApiKey(req.endpoint) && a.Admitted? ==>
      Authenticate(users, req.bearer).Authenticated? && a.actor == Some(Authenticate(users, req.bearer).actor)
    ensures a.Admitted? ==> (a.target.Some? <==> TargetId(req.endpoint).Some?)
    ensures a.Admitted? && a.target.Some? ==> a.target.value in users && a.target.value.id == TargetId(req.endpoint).value
    ensures BehindApiKey(req.endpoint) && Authenticate(users, req.bearer).Authenticated? && TargetId(req.endpoint).Some? ==>
      (a == Halted(UserDoesNotExist) <==> forall k :: 0 <= k < |users| ==> users[k].id != TargetId(req.endpoint).value)
    ensures a.Halted? ==> a.response == InvalidAuthorisation || a.response == UserDoesNotExist
    ensures BehindApiKey(req.endpoint) && Authenticate(users, req.bearer).Authenticated? &&
      (TargetId(req.endpoint).None? || (exists k :: 0 <= k < |users| && users[k].id == TargetId(req.endpoint).value))
      ==> a.Admitted?
  {
    if !BehindApiKey(req.endpoint) then Admitted(None, None)
    else match Authenticate(users, req.bearer)
      case Unauthenticated(resp) => Halted(resp)
      case Authenticated(actor) =>
        match TargetId(req.endpoint)
        case None => Admitted(Some(actor), None)
        case Some(id) =>
          match First(users, IdIs(id))
          case Some(i) => Admitted(Some(actor), Some(users[i]))
          case None => Halted(ExceptionHandler.Respond(NotFoundHttp(Some(ExceptionHandler.UserModelClass))))
  }

  /** Without a token, or with a token nobody holds, no guarded route reaches its controller, and both get the same 401. */
  lemma UnauthenticatedStopsAtMiddleware(users: Table, e: Endpoint, token: string)
    requires BehindApiKey(e) && !KeyInUse(users, token)
    ensures Admit(users, Request(None, e)) == Admit(users, Request(Some(token), e)) == Halted(InvalidAuthorisation)
  {
  }

  /**
   * The key login hands out authenticates as the account that logged in,
   * and that account may then fetch its own record.
   */
  lemma LoginKeyOpensOwnRecord(users: Table, nextId: nat, c: Credentials)
    requires WellFormed(users, nextId)
    requires UserAuthController.Login(users, c).status == 200
    ensures var b := UserAuthController.Login(users, c).body;
      var a := Admit(users, Request(Some(b.apiKey), GetRoute(b.userId)));
      && a.Admitted? && a.actor.Some? && a.actor == a.target && a.actor.value.id == b.userId
      && UserController.Get(a.actor.value, a.target.value) == Response(200, Record(a.actor.value))
  {
    var b := UserAuthController.Login(users, c).body;
    var i :| 0 <= i < |users| && c.email == Some(users[i].email) && c.password == Some(users[i].password)
             && b == LoggedIn("Logged in successfully.", users[i].id, users[i].apiKey);
    OwnKeyAuthenticates(users, nextId, i);
    FirstFindsRow(users, nextId, i);
  }

  /**
   * Serves one request against the table. Requests stopped before their
   * controller change nothing; only register and update can change the
   * table, and only register notifies. `key` stands for the random key
   * the observer would draw if this request creates an account.
   */
  method Serve(table: Storage.UserTable, controller: UserAuthController.UserAuthController, req: Request, key: string)
    returns (resp: Response)
    requires table.Valid()
    requires |key| == KeyLength && !KeyInUse(table.rows, key)
    modifies table, controller.registerAlertService
    ensures table.Valid()
    ensures Admit(old(table.rows), req).Halted? ==>
      resp == Admit(old(table.rows), req).response && unchanged(table) && unchanged(controller.registerAlertService)
    ensures !req.endpoint.RegisterRoute? && !req.endpoint.UpdateRoute? ==> unchanged(table)
    ensures !req.endpoint.RegisterRoute? ==> unchanged(controller.registerAlertService)
    ensures Admit(old(table.rows), req).Admitted? ==>
      var a := Admit(old(table.rows), req);
      match req.endpoint
      case CurrentUser => resp == Response(200, Record(a.actor.value))
      case LoginRoute(c) => resp == UserAuthController.Login(old(table.rows), c)
      case GetRoute(_) => resp == UserController.Get(a.actor.value, a.target.value)
      case IndexRoute => resp == UserController.Index(old(table.rows), a.actor.value)
      case RegisterRoute(input) =>
        var errors := UserAuthController.RegisterErrors(old(table.rows), input);
        if a.actor.value.role != AdminRole then
          resp == Unauthorised && unchanged(table) && unchanged(controller.registerAlertService)
        else if errors != {} then
          resp == Response(422, ValidationErrors(errors)) && unchanged(table) && unchanged(controller.registerAlertService)
        else
          var u := UserAuthController.NewUser(old(table.nextId), input, key);
          && table.rows == old(table.rows) + [u]
          && table.nextId == old(table.nextId) + 1
          && controller.registerAlertService.notified == old(controller.registerAlertService.notified) + [u]
          && resp == Response(201, Created("User account created.", u.id, u, key))
      case UpdateRoute(_, input) =>
        var target := a.target.value;
        var errors := UserController.UpdateErrors(old(table.rows), target, input);
        if !UserPolicy.Can(a.actor.value, UserPolicy.Update(target)) then
          resp == PermissionDenied && unchanged(table)
        else if errors != {} then
          resp == Response(422, ValidationErrors(errors)) && unchanged(table)
        else
          var v := UserController.Patch(target, UserController.EffectivePayload(a.actor.value, input));
          && resp == Response(200, Updated("Successfully updated.", v))
          && table.nextId == old(table.nextId)
          && |table.rows| == |old(table.rows)|
          && forall k :: 0 <= k < |table.rows| ==>
               table.rows[k] == if old(table.rows)[k].id == target.id then v else old(table.rows)[k]
  {
    var admission := Admit(table.rows, req);
    if admission.Halted? {
      return admission.response;
    }
    match req.endpoint {
      case CurrentUser =>
        resp := Response(200, Record(admission.actor.value));
      case LoginRoute(c) =>
        resp := UserAuthController.Login(table.rows, c);
      case RegisterRoute(input) =>
        var out := controller.Register(table, admission.actor.value, input, key);
        resp := ExceptionHandler.Finish(out);
      case GetRoute(_) =>
        resp := UserController.Get(admission.actor.value, admission.target.value);
      case IndexRoute =>
        resp := UserController.Index(table.rows, admission.actor.value);
      case UpdateRoute(_, input) =>
        var out := UserController.Update(table, admission.actor.value, admission.target.value, input);
        resp := ExceptionHandler.Finish(out);
    }
  }
}
