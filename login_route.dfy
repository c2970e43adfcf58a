/**
 * The web app's `/api/auth/login` route. It only reads the user table: it looks the
 * user up by lowercased email, compares the password as a plain string, and on success
 * replies with a token and the record without its password. The signed token is opaque:
 * `sign(userId, email)` stands for the token library.
 */
module LoginRoute {
  import opened Wrappers
  import opened JsText
  import opened Entities
  import opened Http
  import opened Tables

  const RequiredMessage := "Email and password are required"
  const InvalidMessage := "Invalid email or password"

  /** The request body; a field that is absent or null is None. */
  datatype LoginRequest = LoginRequest(email: Option<string>, password: Option<string>)

  /** The stored record with the same email up to case, and the given password. */
  predicate Matches(users: UserTable, body: LoginRequest)
    reads users
  {
    && body.email.Some? && body.password.Some?
    && ToLower(body.email.value) in users.rows
    && users.rows[ToLower(body.email.value)].password == body.password.value
  }

  function Post(users: UserTable, body: LoginRequest, sign: (string, string) -> string): (r: Response)
    reads users
    ensures r.status in {200, 400, 401}
    ensures r.status == 400 <==> !TruthyText(body.email) || !TruthyText(body.password)
    ensures r.status == 400 ==> r.body == ErrorBody(RequiredMessage)
    ensures r.status == 401 <==> TruthyText(body.email) && TruthyText(body.password) && !Matches(users, body)
    ensures r.status == 401 ==> r.body == ErrorBody(InvalidMessage)
    ensures r.status == 200 <==> TruthyText(body.email) && TruthyText(body.password) && Matches(users, body)
    ensures r.status == 200 ==>
      var u := users.rows[ToLower(body.email.value)];
      r.body == LoginBody(WithoutPassword(u), sign(u.id, u.email))
  {
    if !TruthyText(body.email) || !TruthyText(body.password) then
      Response(400, ErrorBody(RequiredMessage))
    else
      match users.FindByEmail(ToLower(body.email.value))
      case None => Response(401, ErrorBody(InvalidMessage))
      case Some(user) =>
        if body.password.value != user.password then
          Response(401, ErrorBody(InvalidMessage))
        else
          Response(200, LoginBody(WithoutPassword(user), sign(user.id, user.email)))
  }

  /** An unknown email and a wrong password get the very same reply. */
  lemma UnknownAndWrongAlike(users: UserTable, unknown: LoginRequest, wrong: LoginRequest, sign: (string, string) -> string)
    requires TruthyText(unknown.email) && TruthyText(unknown.password)
    requires ToLower(unknown.email.value) !in users.rows
    requires TruthyText(wrong.email) && TruthyText(wrong.password)
    requires ToLower(wrong.email.value) in users.rows
    requires users.rows[ToLower(wrong.email.value)].password != wrong.password.value
    ensures Post(users, unknown, sign) == Post(users, wrong, sign)
  {
  }

  /** Login ignores the case of the email's ASCII letters. */
  lemma EmailCaseIgnored(users: UserTable, email1: string, email2: string, password: Option<string>, sign: (string, string) -> string)
    requires ToLower(email1) == ToLower(email2)
    ensures Post(users, LoginRequest(Some(email1), password), sign) == Post(users, LoginRequest(Some(email2), password), sign)
  {
    assert |email1| == |ToLower(email1)| == |email2|;
  }

  /**
   * A user stored under a lowercase email logs in with that email written in any case
   * and the stored password, and gets back every field but the password.
   */
  lemma StoredUserLogsIn(users: UserTable, email: string, sign: (string, string) -> string)
    requires users.Valid()
    requires email != "" && ToLower(email) in users.rows && users.rows[ToLower(email)].password != ""
    ensures
      var u := users.rows[ToLower(email)];
      var r := Post(users, LoginRequest(Some(email), Some(u.password)), sign);
      && r.status == 200
      && WithPassword(r.body.publicUser, u.password) == u
      && r.body.token == sign(u.id, ToLower(email))
  {
    PasswordRoundTrip(users.rows[ToLower(email)]);
  }
}
