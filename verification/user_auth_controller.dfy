/** Account creation (admin only) and login. */
module UserAuthController {
  import opened Wrappers
  import opened Users
  import opened Http
  import UserPolicy
  import Storage
  import UserObserver
  import RegisterAlert
  import UserController

  /** The role of a new account: the submitted one, else the column default `user`. */
  function RoleOrDefault(role: Option<string>): (r: Role)
    ensures r == UserRole || (role.Some? && ParseRole(role.value) == Some(r))
    ensures forall x :: role == Some(RoleName(x)) ==> r == x
  {
    if role.Some? && ParseRole(role.value).Some? then ParseRole(role.value).value else UserRole
  }

  /**
   * The fields of a register request that fail validation: name required;
   * email required, well-formed and not in the table; password required
   * with at least 8 characters; phone optional; role optional and `user`
   * or `admin`.
   */
  function RegisterErrors(users: Table, req: Input): (errs: set<Field>)
    ensures PhoneField !in errs
    ensures errs == {} <==>
      && req.name.Some? && req.name.value != ""
      && req.email.Some? && ValidEmail(req.email.value) && !EmailTaken(users, req.email.value, None)
      && req.password.Some? && |req.password.value| >= 8
      && (req.role.Some? ==> ParseRole(req.role.value).Some?)
  {
    (if req.name.None? || req.name.value == "" then {NameField} else {})
    + (if req.email.None? || !ValidEmail(req.email.value) || EmailTaken(users, req.email.value, None)
       then {EmailField} else {})
    + (if req.password.None? || |req.password.value| < 8 then {PasswordField} else {})
    + (if req.role.Some? && ParseRole(req.role.value).None? then {RoleField} else {})
  }

  /** Every missing or malformed field is reported, each under its own name. */
  lemma RegisterReportsEachField(users: Table, req: Input)
    ensures req.name.None? || req.name == Some("") ==> NameField in RegisterErrors(users, req)
    ensures req.email.None? ==> EmailField in RegisterErrors(users, req)
    ensures req.email.Some? && !ValidEmail(req.email.value) ==> EmailField in RegisterErrors(users, req)
    ensures req.email.Some? && EmailTaken(users, req.email.value, None) ==> EmailField in RegisterErrors(users, req)
    ensures req.password.None? ==> PasswordField in RegisterErrors(users, req)
    ensures req.password.Some? && |req.password.value| < 8 ==> PasswordField in RegisterErrors(users, req)
    ensures req.role.Some? && req.role.value != "user" && req.role.value != "admin" ==> RoleField in RegisterErrors(users, req)
  {
  }

  /** The row a valid register request becomes, once it has its id and key. */
  function NewUser(id: nat, req: Input, key: string): (u: User)
    requires req.name.Some? && req.email.Some? && req.password.Some?
    ensures u == UserController.Patch(User(id, "", "", "", None, UserRole, key), req)
  {
    User(id, req.name.value, req.email.value, req.password.value, req.phone, RoleOrDefault(req.role), key)
  }

  /**
   * `Auth::attempt`: the first row holding the submitted email, provided
   * its stored secret equals the submitted password.
   */
  function Attempt(users: Table, c: Credentials): (r: Option<nat>)
    ensures r.Some? ==> r.value < |users| && c.email == Some(users[r.value].email) && c.password == Some(users[r.value].password)
  {
    if c.email.None? || c.password.None? then None
    else match First(users, EmailIs(c.email.value))
      case Some(i) => if users[i].password == c.password.value then Some(i) else None
      case None => None
  }

  /** Login answers 200 with the account's id and stored key, or 401; it never changes the table. */
  function Login(users: Table, c: Credentials): (r: Response)
    ensures r.status == 200 || r == InvalidLogin
    ensures r.status == 200 ==>
      exists i :: && 0 <= i < |users|
                  && c.email == Some(users[i].email) && c.password == Some(users[i].password)
                  && r.body == LoggedIn("Logged in successfully.", users[i].id, users[i].apiKey)
  {
    match Attempt(users, c)
    case Some(i) => Response(200, LoggedIn("Logged in successfully.", users[i].id, users[i].apiKey))
    case None => InvalidLogin
  }

  /** A stored email with its stored secret logs in as that row; any other password is refused. */
  lemma StoredCredentialsLogIn(users: Table, nextId: nat, i: nat, password: string)
    requires WellFormed(users, nextId) && i < |users|
    ensures Login(users, Credentials(Some(users[i].email), Some(password))) ==
      if password == users[i].password
      then Response(200, LoggedIn("Logged in successfully.", users[i].id, users[i].apiKey))
      else InvalidLogin
  {
    FirstFindsRow(users, nextId, i);
  }

  class UserAuthController {
    /** The notifier the container injects. */
    const registerAlertService: RegisterAlert.RegisterAlertService

    constructor (service: RegisterAlert.RegisterAlertService)
      ensures registerAlertService == service
    {
      registerAlertService := service;
    }

    /**
     * Admin-only account creation: permission, then validation, then the
     * insert (during which the observer assigns the key), then one
     * notification with the new row, then 201.
     */
    method Register(table: Storage.UserTable, actor: User, req: Input, key: string) returns (out: Outcome)
      requires table.Valid()
      requires |key| == KeyLength && !KeyInUse(table.rows, key)
      modifies table, registerAlertService
      ensures table.Valid()
      ensures !UserPolicy.Can(actor, UserPolicy.Create) ==>
        out == Returned(Unauthorised) && unchanged(table) && unchanged(registerAlertService)
      ensures UserPolicy.Can(actor, UserPolicy.Create) && RegisterErrors(old(table.rows), req) != {} ==>
        && out == Threw(Validation(RegisterErrors(old(table.rows), req)))
        && unchanged(table) && unchanged(registerAlertService)
      ensures UserPolicy.Can(actor, UserPolicy.Create) && RegisterErrors(old(table.rows), req) == {} ==>
        var u := NewUser(old(table.nextId), req, key);
        && table.rows == old(table.rows) + [u]
        && table.nextId == old(table.nextId) + 1
        && registerAlertService.notified == old(registerAlertService.notified) + [u]
        && out == Returned(Response(201, Created("User account created.", u.id, u, u.apiKey)))
    {
      if !UserPolicy.Can(actor, UserPolicy.Create) {
        return Returned(Unauthorised);
      }
      var errors := RegisterErrors(table.rows, req);
      if errors != {} {
        return Threw(Validation(errors));
      }
      var m := new Storage.UserModel.Fill(req.name.value, req.email.value, req.password.value, req.phone, RoleOrDefault(req.role));
      UserObserver.Creating(m, key);
      var u := table.Insert(m);
      // The notifier's answer does not affect the response.
      var _ := registerAlertService.NotifyRegisteredUser(u);
      out := Returned(Response(201, Created("User account created.", u.id, u, u.apiKey)));
    }
  }
}
