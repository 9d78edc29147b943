/**
 * The api-key middleware: the bearer token is looked up in the `users`
 * table and either names the actor of the request or ends it with 401.
 * The token is the bearer credential of section 2.1 of RFC 6750; reading
 * it out of the Authorization header is framework code and is a
 * parameter here.
 */
module AuthCheck {
  import opened Wrappers
  import opened Users
  import opened Http

  /** Either the authenticated actor, or the response that ends the request. */
  datatype AuthResult = Authenticated(actor: User) | Unauthenticated(response: Response)

  /** PHP truthiness of the token: absent, "" and "0" all count as no token. */
  predicate Presented(token: Option<string>)
    ensures Presented(token) ==> token.Some? && token.value != ""
    ensures token.Some? && |token.value| >= 2 ==> Presented(token)
  {
    token.Some? && token.value != "" && token.value != "0"
  }

  function Authenticate(users: Table, token: Option<string>): (r: AuthResult)
    ensures r.Authenticated? <==> Presented(token) && KeyInUse(users, token.value)
    ensures r.Authenticated? ==> r.actor in users && r.actor.apiKey == token.value
    ensures r.Authenticated? ==> r.actor == users[First(users, ApiKeyIs(token.value)).value]
    ensures r.Unauthenticated? ==> r.response == InvalidAuthorisation
  {
    if Presented(token) then
      match First(users, ApiKeyIs(token.value))
      case Some(i) => Authenticated(users[i])
      case None => Unauthenticated(InvalidAuthorisation)
    else
      Unauthenticated(InvalidAuthorisation)
  }

  /** A missing token and a token no row holds get the same answer: nothing reveals whether a key exists. */
  lemma UnknownLooksLikeMissing(users: Table, token: string)
    requires !KeyInUse(users, token)
    ensures Authenticate(users, Some(token)) == Authenticate(users, None) == Unauthenticated(InvalidAuthorisation)
  {
  }

  /** Every row's own key authenticates exactly that row. */
  lemma OwnKeyAuthenticates(users: Table, nextId: nat, i: nat)
    requires WellFormed(users, nextId) && i < |users|
    ensures Authenticate(users, Some(users[i].apiKey)) == Authenticated(users[i])
  {
    FirstFindsRow(users, nextId, i);
    assert |users[i].apiKey| == KeyLength;
  }

  /**
   * The "0" token that PHP truthiness rejects is never a stored key, so
   * treating it as absent is unobservable.
   */
  lemma ZeroTokenUnobservable(users: Table, nextId: nat)
    requires WellFormed(users, nextId)
    ensures !KeyInUse(users, "0")
    ensures Authenticate(users, Some("0")) == Authenticate(users, None)
  {
  }

  /**
   * Rewriting a row without touching its id or key (as an update does)
   * changes nobody's authentication: every token names the same account as
   * before, and the rewritten row itself when it named that row.
   */
  lemma AuthenticationSurvivesRewrite(users: Table, i: nat, v: User, token: Option<string>)
    requires i < |users| && v.id == users[i].id && v.apiKey == users[i].apiKey
    ensures Authenticate(users[i := v], token).Authenticated? == Authenticate(users, token).Authenticated?
    ensures Authenticate(users, token).Authenticated? ==>
      Authenticate(users[i := v], token).actor.id == Authenticate(users, token).actor.id
    ensures Authenticate(users, token).Authenticated? && Authenticate(users, token).actor.id != v.id ==>
      Authenticate(users[i := v], token).actor == Authenticate(users, token).actor
  {
    if Presented(token) {
      FirstStableUnderRewrite(users, i, v, ApiKeyIs(token.value));
    }
  }
}
