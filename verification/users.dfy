/**
 * The rows of the `users` table and the queries the core runs against it.
 * The table is a sequence kept in id order. The queries carry no
 * ORDER BY, so the model assumes the database returns rows in that order
 * to `where(...)->first()` and `User::all()`. Keys and emails are compared
 * by exact equality, which assumes a case-sensitive column collation.
 */
module Users {
  import opened Wrappers

  /** Length of every api key the observer assigns. */
  const KeyLength: nat := 32

  datatype Role = UserRole | AdminRole

  /** The string stored in the `role` column. */
  function RoleName(r: Role): string {
    match r
    case UserRole => "user"
    case AdminRole => "admin"
  }

  /** Reads a submitted role under the validator's `in:user,admin` rule. */
  function ParseRole(s: string): (r: Option<Role>)
    ensures r.Some? <==> s == "user" || s == "admin"
    ensures r.Some? ==> RoleName(r.value) == s
  {
    if s == "user" then Some(UserRole)
    else if s == "admin" then Some(AdminRole)
    else None
  }

  /** One row of the `users` table. The password is the stored secret; hashing is not modelled. */
  datatype User = User(
    id: nat,
    name: string,
    email: string,
    password: string,
    phone: Option<string>,
    role: Role,
    apiKey: string)

  type Table = seq<User>

  /** A single-column equality filter, as in `User::where(column, '=', value)`. */
  datatype Where = IdIs(id: int) | ApiKeyIs(key: string) | EmailIs(email: string)

  predicate Satisfies(u: User, w: Where) {
    match w
    case IdIs(id) => u.id == id
    case ApiKeyIs(key) => u.apiKey == key
    case EmailIs(email) => u.email == email
  }

  /** Position of the first row satisfying `w`, or None: the result of `where(...)->first()`. */
  function First(users: Table, w: Where): (r: Option<nat>)
    ensures r.Some? ==> r.value < |users| && Satisfies(users[r.value], w)
    ensures r.Some? ==> forall j :: 0 <= j < r.value ==> !Satisfies(users[j], w)
    ensures r.None? ==> forall j :: 0 <= j < |users| ==> !Satisfies(users[j], w)
  {
    if |users| == 0 then None
    else if Satisfies(users[0], w) then Some(0)
    else match First(users[1..], w)
      case None => None
      case Some(k) => Some(k + 1)
  }

  predicate KeyInUse(users: Table, key: string) {
    exists i :: 0 <= i < |users| && users[i].apiKey == key
  }

  /**
   * Whether a row other than the one whose id is `except` already holds
   * `email`: the validator's `unique:users,email[,id]` rule.
   */
  predicate EmailTaken(users: Table, email: string, except: Option<nat>)
    ensures EmailTaken(users, email, except) ==> First(users, EmailIs(email)).Some?
    ensures except.None? ==> (EmailTaken(users, email, except) <==> First(users, EmailIs(email)).Some?)
  {
    exists i :: 0 <= i < |users| && users[i].email == email && except != Some(users[i].id)
  }

  /**
   * What every reachable table satisfies: ids ascend (auto-increment) and
   * lie below the counter, emails are unique (the validator's `unique`
   * rule, assuming no two registrations race), api keys are unique and 32
   * characters long (the observer stamps every inserted row with a
   * 32-character random key, assumed fresh).
   */
  predicate WellFormed(users: Table, nextId: nat)
    ensures WellFormed(users, nextId) ==>
      forall i, j :: 0 <= i < |users| && 0 <= j < |users| && users[i].id == users[j].id ==> i == j
    ensures WellFormed(users, nextId) ==>
      forall i, j :: 0 <= i < |users| && 0 <= j < |users| && users[i].email == users[j].email ==> i == j
  {
    && (forall i, j :: 0 <= i < j < |users| ==> users[i].id < users[j].id)
    && (forall i :: 0 <= i < |users| ==> users[i].id < nextId)
    && (forall i, j :: 0 <= i < j < |users| ==> users[i].email != users[j].email)
    && (forall i, j :: 0 <= i < j < |users| ==> users[i].apiKey != users[j].apiKey)
    && (forall i :: 0 <= i < |users| ==> |users[i].apiKey| == KeyLength)
  }

  /** In a well-formed table a row is determined by its id. */
  lemma IdDeterminesRow(users: Table, nextId: nat, i: nat, j: nat)
    requires WellFormed(users, nextId)
    requires i < |users| && j < |users| && users[i].id == users[j].id
    ensures i == j
  {
  }

  /** When exactly one row matches, `first()` finds that row. */
  lemma FirstFindsOnlyMatch(users: Table, w: Where, i: nat)
    requires i < |users| && Satisfies(users[i], w)
    requires forall j :: 0 <= j < |users| && Satisfies(users[j], w) ==> j == i
    ensures First(users, w) == Some(i)
  {
  }

  /** Any row of a well-formed table is the one `first()` finds by its id, key or email. */
  lemma FirstFindsRow(users: Table, nextId: nat, i: nat)
    requires WellFormed(users, nextId) && i < |users|
    ensures First(users, IdIs(users[i].id)) == Some(i)
    ensures First(users, ApiKeyIs(users[i].apiKey)) == Some(i)
    ensures First(users, EmailIs(users[i].email)) == Some(i)
  {
    forall j | 0 <= j < |users| && users[j].id == users[i].id
      ensures j == i
    {
      IdDeterminesRow(users, nextId, i, j);
    }
    FirstFindsOnlyMatch(users, IdIs(users[i].id), i);
    forall j | 0 <= j < |users| && users[j].apiKey == users[i].apiKey
      ensures j == i
    {
    }
    FirstFindsOnlyMatch(users, ApiKeyIs(users[i].apiKey), i);
    forall j | 0 <= j < |users| && users[j].email == users[i].email
      ensures j == i
    {
    }
    FirstFindsOnlyMatch(users, EmailIs(users[i].email), i);
  }

  /**
   * Rewriting one row without changing whether it matches `w` leaves the
   * outcome of `first()` unchanged.
   */
  lemma {:induction false} FirstStableUnderRewrite(users: Table, i: nat, v: User, w: Where)
    requires i < |users|
    requires Satisfies(v, w) <==> Satisfies(users[i], w)
    ensures First(users[i := v], w) == First(users, w)
  {
    if i > 0 {
      assert users[i := v][1..] == users[1..][i - 1 := v];
      FirstStableUnderRewrite(users[1..], i - 1, v, w);
    }
  }

  /** Appending a fresh row with the next id, a fresh key and an unused email keeps the table well-formed. */
  lemma InsertPreservesWellFormed(users: Table, nextId: nat, u: User)
    requires WellFormed(users, nextId)
    requires u.id == nextId && |u.apiKey| == KeyLength
    requires !KeyInUse(users, u.apiKey) && !EmailTaken(users, u.email, None)
    ensures WellFormed(users + [u], nextId + 1)
  {
    var t := users + [u];
    forall i, j | 0 <= i < j < |t|
      ensures t[i].id < t[j].id && t[i].email != t[j].email && t[i].apiKey != t[j].apiKey
    {
      if j == |users| {
        assert t[i] == users[i];
      }
    }
  }
}
