/**
 * The web app's login page: the email and password form, its error map, the submit
 * flag, and the redirect home after a successful login. The fetch call is replaced by
 * its reply, passed in.
 */
module LoginPage {
  import opened Wrappers
  import opened JsText
  import opened Http
  import opened Tables
  import LoginRoute

  const EmailRequired := "Email is required"
  const EmailInvalid := "Email is invalid"
  const PasswordRequired := "Password is required"
  const LoginFailed := "Login failed"

  const FormFields: set<string> := {"email", "password"}

  /** No whitespace anywhere in `t`. */
  predicate NoSpace(t: string) {
    forall i | 0 <= i < |t| :: !IsSpace(t[i])
  }

  /**
   * `/\S+@\S+\.\S+/.test(s)`: somewhere in `s`, with no whitespace in between, a
   * character, an `@`, one or more characters, a `.` and a character.
   */
  predicate LooksLikeEmail(s: string) {
    exists at, dot | 1 <= at && at + 1 < dot && dot + 1 < |s| ::
      s[at] == '@' && s[dot] == '.' && NoSpace(s[at - 1..dot + 2])
  }

  /** The pattern is not anchored: text around a match does not spoil it. */
  lemma LooksLikeEmailInContext(s: string, before: string, after: string)
    requires LooksLikeEmail(s)
    ensures LooksLikeEmail(before + s + after)
  {
    var at, dot :| 1 <= at && at + 1 < dot && dot + 1 < |s|
      && s[at] == '@' && s[dot] == '.' && NoSpace(s[at - 1..dot + 2]);
    var t := before + s + after;
    var n := |before|;
    assert t[n + at - 1..n + dot + 2] == s[at - 1..dot + 2];
    assert t[n + at] == '@' && t[n + dot] == '.';
  }

  /** A matching string has an `@` and a `.`, and at least five characters. */
  lemma LooksLikeEmailShape(s: string)
    requires LooksLikeEmail(s)
    ensures '@' in s && '.' in s && |s| >= 5
  {
    var at, dot :| 1 <= at && at + 1 < dot && dot + 1 < |s|
      && s[at] == '@' && s[dot] == '.' && NoSpace(s[at - 1..dot + 2]);
  }

  /** A simple address matches. */
  lemma PlainAddressMatches(x: char, y: char, z: char)
    requires !IsSpace(x) && !IsSpace(y) && !IsSpace(z)
    ensures LooksLikeEmail([x, '@', y, '.', z])
  {
    var s := [x, '@', y, '.', z];
    assert s[1] == '@' && s[3] == '.';
    assert NoSpace(s[1 - 1..3 + 2]);
  }

  /** Whitespace right after the only `@` breaks the match. */
  lemma SpaceAfterAtFails(x: char, y: char, z: char)
    requires x != '@' && y != '@' && z != '@'
    ensures !LooksLikeEmail([x, '@', ' ', y, '.', z])
  {
    var s := [x, '@', ' ', y, '.', z];
    forall at, dot | 1 <= at && at + 1 < dot && dot + 1 < |s| && s[at] == '@' && s[dot] == '.'
      ensures !NoSpace(s[at - 1..dot + 2])
    {
      assert at == 1;
      assert s[at - 1..dot + 2][2] == ' ';
    }
  }

  /**
   * `validate`: an empty email is required, a non-empty one must match the pattern, an
   * empty password is required; each field gets at most one message.
   */
  function LoginErrors(email: string, password: string): (errors: map<string, string>)
    ensures errors.Keys <= {"email", "password"}
    ensures "email" in errors <==> !LooksLikeEmail(email)
    ensures "email" in errors ==> (errors["email"] == EmailRequired <==> email == "")
    ensures "email" in errors ==> (errors["email"] == EmailInvalid <==> email != "")
    ensures "password" in errors <==> password == ""
    ensures "password" in errors ==> errors["password"] == PasswordRequired
    ensures errors == map[] <==> LooksLikeEmail(email) && password != ""
  {
    var emailErrors: map<string, string> :=
      if email == "" then map["email" := EmailRequired]
      else if !LooksLikeEmail(email) then map["email" := EmailInvalid]
      else map[];
    if password == "" then emailErrors["password" := PasswordRequired] else emailErrors
  }

  /** A request the page lets through is never turned away by the route as incomplete. */
  lemma SentRequestIsComplete(users: UserTable, email: string, password: string, sign: (string, string) -> string)
    requires LoginErrors(email, password) == map[]
    ensures LoginRoute.Post(users, LoginRoute.LoginRequest(Some(email), Some(password)), sign).status != 400
  {
  }

  class Page {
    var form: map<string, string>
    var errors: map<string, string>
    var isSubmitting: bool
    var redirectedHome: bool

    ghost predicate Valid()
      reads this
    {
      form.Keys == FormFields
    }

    constructor ()
      ensures Valid()
      ensures form == map["email" := "", "password" := ""] && errors == map[]
      ensures !isSubmitting && !redirectedHome
    {
      form := map["email" := "", "password" := ""];
      errors := map[];
      isSubmitting := false;
      redirectedHome := false;
    }

    /** `handleChange`: sets the one field. */
    method HandleChange(field: string, value: string)
      requires Valid() && field in FormFields
      modifies this
      ensures Valid()
      ensures form == old(form)[field := value]
      ensures errors == old(errors) && isSubmitting == old(isSubmitting) && redirectedHome == old(redirectedHome)
    {
      form := form[field := value];
    }

    /**
     * The start of `handleSubmit`: with any validation error the errors are stored and
     * nothing is sent; otherwise the request is sent and the page is submitting.
     */
    method BeginSubmit() returns (request: Option<LoginRoute.LoginRequest>)
      requires Valid()
      modifies this
      ensures Valid() && form == old(form) && redirectedHome == old(redirectedHome)
      ensures request.Some? <==> LoginErrors(form["email"], form["password"]) == map[]
      ensures request.None? ==>
        errors == LoginErrors(form["email"], form["password"]) && isSubmitting == old(isSubmitting)
      ensures request.Some? ==>
        && request.value == LoginRoute.LoginRequest(Some(form["email"]), Some(form["password"]))
        && errors == old(errors)
        && isSubmitting
    {
      var formErrors := LoginErrors(form["email"], form["password"]);
      if |formErrors| > 0 {
        errors := formErrors;
        return None;
      }
      isSubmitting := true;
      return Some(LoginRoute.LoginRequest(Some(form["email"]), Some(form["password"])));
    }

    /**
     * The rest of `handleSubmit`, given the reply: an ok reply sends the browser home;
     * otherwise the errors become just the reply's error, or "Login failed", under "form".
     */
    method FinishSubmit(reply: ClientReply<()>)
      requires Valid()
      modifies this
      ensures Valid() && form == old(form) && !isSubmitting
      ensures reply.Delivered? ==> redirectedHome && errors == old(errors)
      ensures reply.Refused? ==>
        && redirectedHome == old(redirectedHome)
        && errors == map["form" := OrElse(reply.message, LoginFailed)]
    {
      isSubmitting := false;
      match reply
      case Delivered(_) =>
        redirectedHome := true;
      case Refused(error) =>
        errors := map["form" := OrElse(error, LoginFailed)];
    }
  }
}
