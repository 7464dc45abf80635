/**
 * The server login endpoint (app/api/auth/login/route.ts): an early-return
 * chain that finds the account by email in the bundled user list and checks
 * the password only for the emails listed in the demo password table.
 */
module LoginRoute {
  import opened Wrappers
  import opened Domain

  datatype LoginBody = LoginBody(email: string, password: string)

  /** The public fields of an account. */
  datatype PublicUser = PublicUser(id: string, name: string, email: string, role: Role)

  datatype LoginReply =
    | Refused(status: nat, error: string)
    | LoggedIn(user: PublicUser, message: string)

  /** `DEMO_PASSWORDS` */
  const DemoPasswords: map<string, string> := map["admin@ionecenter.com" := "admin123"]

  const InvalidCredentials := "Invalid email or password"

  /** `users.find(u => u.email === email)` */
  function FindByEmail(users: seq<Account>, email: string): (r: Option<Account>)
    ensures r.Some? <==> exists k :: 0 <= k < |users| && users[k].email == email
    ensures r.Some? ==> r.value in users && r.value.email == email
    decreases |users|
  {
    if |users| == 0 then None
    else if users[0].email == email then Some(users[0])
    else
      assert forall k :: 1 <= k < |users| ==> users[k] == users[1..][k - 1];
      FindByEmail(users[1..], email)
  }

  /** `storedPassword && storedPassword !== password`: a listed, non-empty password that differs. */
  predicate WrongDemoPassword(demo: map<string, string>, email: string, password: string) {
    email in demo && demo[email] != "" && demo[email] != password
  }

  /** `POST` for a body (`None` when it is not JSON), the bundled list and the demo password table. */
  function LoginPost(body: Option<LoginBody>, bundled: seq<Account>, demo: map<string, string>): (r: LoginReply)
    ensures r.Refused? ==> r.status in {400, 401, 500}
    ensures r.LoggedIn? ==> body.Some? && r.user.email == body.value.email && r.message == "Login successful"
  {
    match body
    case None => Refused(500, "Internal server error")
    case Some(b) =>
      if b.email == "" || b.password == "" then Refused(400, "Email and password are required")
      else
        match FindByEmail(bundled, b.email)
        case None => Refused(401, InvalidCredentials)
        case Some(u) =>
          if WrongDemoPassword(demo, b.email, b.password) then Refused(401, InvalidCredentials)
          else LoggedIn(PublicUser(u.id, u.name, u.email, u.role), "Login successful")
  }

  /**
   * A login succeeds exactly when both fields are given, some bundled account
   * has the email, and the demo table does not list a different password.
   */
  lemma LoginSucceedsIff(b: LoginBody, bundled: seq<Account>, demo: map<string, string>)
    ensures LoginPost(Some(b), bundled, demo).LoggedIn? <==>
      b.email != "" && b.password != ""
      && (exists k :: 0 <= k < |bundled| && bundled[k].email == b.email)
      && !WrongDemoPassword(demo, b.email, b.password)
  {
  }

  /** An unknown email and a wrong demo password give the same refusal, so the reply does not tell them apart. */
  lemma SameRefusalForUnknownAndWrong(b: LoginBody, bundled: seq<Account>, demo: map<string, string>)
    requires b.email != "" && b.password != ""
    requires FindByEmail(bundled, b.email).None? || WrongDemoPassword(demo, b.email, b.password)
    ensures LoginPost(Some(b), bundled, demo) == Refused(401, "Invalid email or password")
  {
  }

  /** An account whose email the demo table does not list logs in with any non-empty password. */
  lemma UnlistedEmailAcceptsAnyPassword(email: string, p1: string, p2: string, bundled: seq<Account>)
    requires email !in DemoPasswords && p1 != "" && p2 != ""
    requires LoginPost(Some(LoginBody(email, p1)), bundled, DemoPasswords).LoggedIn?
    ensures LoginPost(Some(LoginBody(email, p2)), bundled, DemoPasswords)
         == LoginPost(Some(LoginBody(email, p1)), bundled, DemoPasswords)
  {
  }

  /** The reply carries the first account with that email, reduced to id, name, email and role. */
  lemma {:induction false} ReplyIsFirstAccount(b: LoginBody, bundled: seq<Account>, demo: map<string, string>, k: nat)
    requires k < |bundled| && bundled[k].email == b.email
    requires forall j :: 0 <= j < k ==> bundled[j].email != b.email
    requires LoginPost(Some(b), bundled, demo).LoggedIn?
    ensures LoginPost(Some(b), bundled, demo).user
         == PublicUser(bundled[k].id, bundled[k].name, bundled[k].email, bundled[k].role)
  {
    FindByEmailIsFirst(bundled, b.email, k);
  }

  lemma {:induction false} FindByEmailIsFirst(users: seq<Account>, email: string, k: nat)
    requires k < |users| && users[k].email == email
    requires forall j :: 0 <= j < k ==> users[j].email != email
    ensures FindByEmail(users, email) == Some(users[k])
    decreases k
  {
    if k > 0 {
      FindByEmailIsFirst(users[1..], email, k - 1);
    }
  }

  /** The built-in administrator's demo password is checked. */
  lemma AdminPasswordChecked(bundled: seq<Account>, password: string)
    requires password != "" && password != "admin123"
    ensures LoginPost(Some(LoginBody("admin@ionecenter.com", password)), bundled, DemoPasswords).Refused?
  {
  }
}
