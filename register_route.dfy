/**
 * The web app's `/api/auth/register` route: a duplicate-email check, then one insert
 * with the email lowercased and the password stored as given. Columns the request does
 * not set take their defaults: no names or phone, not an admin.
 */
module RegisterRoute {
  import opened Wrappers
  import opened JsText
  import opened Entities
  import opened Http
  import opened Tables

  const DuplicateMessage := "User with this email already exists"
  const FailedMessage := "Registration failed"

  /** The request body; a field that is absent or null is None. */
  datatype RegisterRequest = RegisterRequest(email: Option<string>, password: Option<string>)

  /** The record the insert creates. */
  function NewUser(id: string, email: string, password: string): (u: User)
    ensures u.email == ToLower(email) && u.password == password && !u.isAdmin
  {
    User(id, ToLower(email), password, None, None, None, false)
  }

  /** No ASCII capital letter in any stored email. */
  ghost predicate KeysLowercase(rows: map<string, User>) {
    forall e, i | e in rows && 0 <= i < |e| :: !IsUpper(e[i])
  }

  lemma InsertKeepsKeysLowercase(rows: map<string, User>, email: string, u: User)
    requires KeysLowercase(rows)
    ensures KeysLowercase(rows[ToLower(email) := u])
  {
  }

  /**
   * The reply of the handler as written, given the table before the request: the
   * duplicate check looks up the email exactly as sent, while the insert uses it
   * lowercased, and the 201 body is the whole record, password included. A missing
   * email makes the lookup throw and a missing password makes the insert throw (500).
   */
  function Reply(rows: map<string, User>, body: RegisterRequest, newId: string): (r: Response)
    ensures r.status in {201, 409, 500}
    ensures r.status == 409 <==> body.email.Some? && body.email.value in rows
    ensures r.status == 409 ==> r.body == ErrorBody(DuplicateMessage)
    ensures r.status == 201 <==>
      && body.email.Some? && body.password.Some?
      && body.email.value !in rows
      && ToLower(body.email.value) !in rows
      && forall e | e in rows :: rows[e].id != newId
    ensures r.status == 201 ==> r.body == UserBody(NewUser(newId, body.email.value, body.password.value))
    ensures r.status == 500 ==> r.body == ErrorBody(FailedMessage)
  {
    if body.email.None? then Response(500, ErrorBody(FailedMessage))
    else if body.email.value in rows then Response(409, ErrorBody(DuplicateMessage))
    else if body.password.None? then Response(500, ErrorBody(FailedMessage))
    else
      var u := NewUser(newId, body.email.value, body.password.value);
      if u.email in rows || exists e | e in rows :: rows[e].id == newId then
        Response(500, ErrorBody(FailedMessage))
      else
        Response(201, UserBody(u))
  }

  /** POST as written. */
  method Post(users: UserTable, body: RegisterRequest, newId: string) returns (res: Response)
    requires users.Valid()
    modifies users
    ensures users.Valid()
    ensures res == Reply(old(users.rows), body, newId)
    ensures users.rows ==
      if res.status == 201 then old(users.rows)[res.body.user.email := res.body.user] else old(users.rows)
    ensures KeysLowercase(old(users.rows)) ==> KeysLowercase(users.rows)
  {
    if body.email.None? {
      return Response(500, ErrorBody(FailedMessage));
    }
    var existing := users.FindByEmail(body.email.value);
    if existing.Some? {
      return Response(409, ErrorBody(DuplicateMessage));
    }
    if body.password.None? {
      return Response(500, ErrorBody(FailedMessage));
    }
    var user := NewUser(newId, body.email.value, body.password.value);
    var ok := users.Create(user);
    if !ok {
      return Response(500, ErrorBody(FailedMessage));
    }
    return Response(201, UserBody(user));
  }

  /**
   * With a user stored under a lowercase email, registering the same address with a
   * capital letter passes the duplicate check and then fails on the unique email column:
   * 500 instead of 409.
   */
  lemma CaseVariantGets500(rows: map<string, User>, email: string, password: string, newId: string)
    requires email !in rows && ToLower(email) in rows
    ensures Reply(rows, RegisterRequest(Some(email), Some(password)), newId) == Response(500, ErrorBody(FailedMessage))
  {
  }

  /** Such an email exists: "A" is not stored, but its lowercase form "a" is. */
  lemma CaseVariantExample(u: User, newId: string)
    requires u.email == "a"
    ensures Reply(map["a" := u], RegisterRequest(Some("A"), Some("p")), newId).status == 500
  {
    assert ToLower("A")[0] == 'a';
    assert ToLower("A") == "a";
    CaseVariantGets500(map["a" := u], "A", "p", newId);
  }

  /** The 201 reply of the handler as written carries the password that was sent. */
  lemma CreatedReplyShowsPassword(rows: map<string, User>, body: RegisterRequest, newId: string)
    requires Reply(rows, body, newId).status == 201
    ensures Reply(rows, body, newId).body.user.password == body.password.value
  {
  }

  /**
   * The reply as intended: the duplicate check uses the lowercased email the insert
   * stores, and the 201 body leaves the password out.
   */
  function NormalizedReply(rows: map<string, User>, body: RegisterRequest, newId: string): (r: Response)
    ensures r.status in {201, 409, 500}
    ensures r.status == 409 <==> body.email.Some? && ToLower(body.email.value) in rows
    ensures r.status == 409 ==> r.body == ErrorBody(DuplicateMessage)
    ensures r.status == 201 <==>
      && body.email.Some? && body.password.Some?
      && ToLower(body.email.value) !in rows
      && forall e | e in rows :: rows[e].id != newId
    ensures r.status == 201 ==>
      r.body == CreatedUserBody(WithoutPassword(NewUser(newId, body.email.value, body.password.value)))
    ensures r.status == 500 ==> r.body == ErrorBody(FailedMessage)
  {
    if body.email.None? then Response(500, ErrorBody(FailedMessage))
    else if ToLower(body.email.value) in rows then Response(409, ErrorBody(DuplicateMessage))
    else if body.password.None? then Response(500, ErrorBody(FailedMessage))
    else
      var u := NewUser(newId, body.email.value, body.password.value);
      if exists e | e in rows :: rows[e].id == newId then
        Response(500, ErrorBody(FailedMessage))
      else
        Response(201, CreatedUserBody(WithoutPassword(u)))
  }

  /** POST as intended. */
  method PostNormalized(users: UserTable, body: RegisterRequest, newId: string) returns (res: Response)
    requires users.Valid()
    modifies users
    ensures users.Valid()
    ensures res == NormalizedReply(old(users.rows), body, newId)
    ensures users.rows ==
      if res.status == 201
      then old(users.rows)[ToLower(body.email.value) := NewUser(newId, body.email.value, body.password.value)]
      else old(users.rows)
    ensures KeysLowercase(old(users.rows)) ==> KeysLowercase(users.rows)
  {
    if body.email.None? {
      return Response(500, ErrorBody(FailedMessage));
    }
    var email := ToLower(body.email.value);
    var existing := users.FindByEmail(email);
    if existing.Some? {
      return Response(409, ErrorBody(DuplicateMessage));
    }
    if body.password.None? {
      return Response(500, ErrorBody(FailedMessage));
    }
    var user := NewUser(newId, body.email.value, body.password.value);
    var ok := users.Create(user);
    if !ok {
      return Response(500, ErrorBody(FailedMessage));
    }
    return Response(201, CreatedUserBody(WithoutPassword(user)));
  }

  /**
   * Intended behaviour: an address that differs from a stored one only in letter case
   * is reported as a duplicate (409).
   */
  lemma CaseVariantGets409(rows: map<string, User>, email: string, stored: string, password: Option<string>, newId: string)
    requires stored in rows && ToLower(email) == ToLower(stored)
    requires KeysLowercase(rows)
    ensures NormalizedReply(rows, RegisterRequest(Some(email), password), newId) == Response(409, ErrorBody(DuplicateMessage))
  {
    assert forall i | 0 <= i < |stored| :: !IsUpper(stored[i]);
    ToLowerKeepsLowercase(stored);
  }

  /** Intended behaviour: the insert never fails on the email column once the check passed. */
  lemma NormalizedNeverHitsEmailConstraint(rows: map<string, User>, body: RegisterRequest, newId: string)
    requires body.email.Some? && body.password.Some?
    requires forall e | e in rows :: rows[e].id != newId
    ensures NormalizedReply(rows, body, newId).status in {201, 409}
  {
  }
}
