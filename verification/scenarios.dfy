/**
 * End-to-end scenarios of the request pipeline on a small table, mirroring the
 * feature tests' scenarios.
 */
module Scenarios {
  import opened Wrappers
  import opened Users
  import opened Http
  import opened Routes
  import Storage
  import UserObserver
  import RegisterAlert
  import UserAuthController
  import AuthCheck

  /** A table holding one account created through the observer, as the tests' factory does. */
  method TableWithOne(name: string, email: string, role: Role, key: string)
    returns (table: Storage.UserTable, u: User)
    requires |key| == KeyLength
    ensures fresh(table) && table.Valid()
    ensures table.rows == [u] && table.nextId == 2
    ensures u == User(1, name, email, "password", None, role, key)
  {
    table := new Storage.UserTable();
    var m := new Storage.UserModel.Fill(name, email, "password", None, role);
    UserObserver.Creating(m, key);
    u := table.Insert(m);
  }

  /**
   * An admin registers two accounts: both get 201, each is inserted, and
   * the notifier is called once per registration, with the new row.
   */
  method TwoRegistrationsNotifyTwice(adminKey: string, key1: string, key2: string)
    returns (first: Response, second: Response, calls: seq<User>)
    requires |adminKey| == KeyLength && |key1| == KeyLength && |key2| == KeyLength
    requires adminKey != key1 && adminKey != key2 && key1 != key2
    ensures |calls| == 2
    ensures calls[0].email == "newemail@example.com" && calls[1].email == "newemail1@example.com"
    ensures first == Response(201, Created("User account created.", 2, calls[0], key1))
    ensures second == Response(201, Created("User account created.", 3, calls[1], key2))
  {
    var table, admin := TableWithOne("Admin", "admin@example.com", AdminRole, adminKey);
    var service := new RegisterAlert.RegisterAlertService();
    var controller := new UserAuthController.UserAuthController(service);

    var body1 := Input(Some("Phil Hart"), Some("newemail@example.com"), Some("Pass123!"), None, None);
    RegisterBodyAccepted(table.rows, body1, "newemail@example.com", 8);
    AuthCheck.OwnKeyAuthenticates(table.rows, table.nextId, 0);
    var req1 := Request(Some(adminKey), RegisterRoute(body1));
    assert Admit(table.rows, req1) == Admitted(Some(admin), None);
    first := Serve(table, controller, req1, key1);
    var u1 := UserAuthController.NewUser(2, body1, key1);
    assert table.rows == [admin, u1] && service.notified == [u1];

    var body2 := Input(Some("Phil Hart"), Some("newemail1@example.com"), Some("Pass123!"), None, None);
    RegisterBodyAccepted(table.rows, body2, "newemail1@example.com", 9);
    AuthCheck.OwnKeyAuthenticates(table.rows, table.nextId, 0);
    var req2 := Request(Some(adminKey), RegisterRoute(body2));
    assert Admit(table.rows, req2) == Admitted(Some(admin), None);
    second := Serve(table, controller, req2, key2);
    calls := service.notified;
  }

  /**
   * A regular user who asks to become admin gets 200 and stays a user; an
   * admin who promotes that user gets 200 and the user is now an admin.
   */
  method RoleChangeNeedsAdmin(adminKey: string, userKey: string, unusedKey: string)
    returns (own: Response, byAdmin: Response)
    requires |adminKey| == KeyLength && |userKey| == KeyLength && |unusedKey| == KeyLength
    requires adminKey != userKey && unusedKey != adminKey && unusedKey != userKey
    ensures own.status == 200 && own.body.Updated? && own.body.user.role == UserRole
    ensures byAdmin.status == 200 && byAdmin.body.Updated? && byAdmin.body.user.role == AdminRole
  {
    var table, admin := TableWithOne("Admin", "admin@example.com", AdminRole, adminKey);
    var m := new Storage.UserModel.Fill("Regular", "user@example.com", "password", None, UserRole);
    UserObserver.Creating(m, userKey);
    var user := table.Insert(m);
    var service := new RegisterAlert.RegisterAlertService();
    var controller := new UserAuthController.UserAuthController(service);
    var promote := Input(None, None, None, None, Some("admin"));

    AuthCheck.OwnKeyAuthenticates(table.rows, table.nextId, 1);
    FirstFindsRow(table.rows, table.nextId, 1);
    var req1 := Request(Some(userKey), UpdateRoute(user.id, promote));
    assert Admit(table.rows, req1) == Admitted(Some(user), Some(user));
    own := Serve(table, controller, req1, unusedKey);
    assert table.rows[1] == user;

    AuthCheck.OwnKeyAuthenticates(table.rows, table.nextId, 0);
    FirstFindsRow(table.rows, table.nextId, 1);
    var req2 := Request(Some(adminKey), UpdateRoute(user.id, promote));
    assert Admit(table.rows, req2) == Admitted(Some(admin), Some(user));
    byAdmin := Serve(table, controller, req2, unusedKey);
  }

  /** A complete register body whose email is new to the table passes validation. */
  lemma RegisterBodyAccepted(users: Table, body: Input, email: string, at: nat)
    requires body == Input(Some("Phil Hart"), Some(email), Some("Pass123!"), None, None)
    requires 0 < at < |email| - 1 && email[at] == '@'
    requires forall k :: 0 <= k < |users| ==> users[k].email != email
    ensures UserAuthController.RegisterErrors(users, body) == {}
  {
    assert ValidEmail(email);
  }
}
