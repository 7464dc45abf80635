/**
 * The server signup endpoint (app/api/auth/signup/route.ts): an early-return
 * validation chain over the request body, then the new account appended to
 * the bundled user list and handed to the GitHub save when a token is set.
 * The bundled list is a parameter and is never changed; the save itself is
 * outside the model, only whether a token is configured matters.
 */
module SignupRoute {
  import opened Wrappers
  import opened Domain
  import opened Strings
  import opened Auth

  /** The fields read from the JSON body; an absent field reads as "". */
  datatype SignupBody = SignupBody(name: string, email: string, password: string, role: string)

  datatype SignupReply =
    | Rejected(status: nat, error: string)
    /** `saveAttempt` is the list handed to the GitHub save, when one is made. */
    | Created(user: Account, message: string, persistedToGitHub: bool, saveAttempt: Option<seq<Account>>)

  const MinPasswordLength := 6

  /** `users.some(u => u.email === email)` over the bundled list. */
  predicate Registered(users: seq<Account>, email: string) {
    exists k :: 0 <= k < |users| && users[k].email == email
  }

  /**
   * `POST` for a body (`None` when it is not JSON), the bundled list, whether
   * `GITHUB_TOKEN` is set, and the clock (`now` in milliseconds, `nowIso` its
   * ISO rendering).
   */
  function SignupPost(body: Option<SignupBody>, bundled: seq<Account>, tokenConfigured: bool,
                      now: nat, nowIso: string): (r: SignupReply)
    ensures r.Rejected? ==> r.status in {400, 409, 500}
    ensures r.Created? ==> r.message == "User created successfully"
  {
    match body
    case None => Rejected(500, "Internal server error")
    case Some(b) =>
      if b.name == "" || b.email == "" || b.password == "" || b.role == "" then
        Rejected(400, "Missing required fields")
      else if b.role != "buyer" && b.role != "seller" then
        Rejected(400, "Invalid role. Must be buyer or seller")
      else if |b.password| < MinPasswordLength then
        Rejected(400, "Password must be at least 6 characters")
      else if Registered(bundled, b.email) then
        Rejected(409, "Email already exists")
      else
        var role := if b.role == "buyer" then Buyer else Seller;
        var user := Account(NewUserId(now), b.name, b.email, role, nowIso);
        var updated := bundled + [user];
        Created(user, "User created successfully", tokenConfigured,
          if tokenConfigured then Some(updated) else None)
  }

  /** The checks run in order: missing field, then role, then length, then duplicate email. */
  lemma CheckOrder(b: SignupBody, bundled: seq<Account>, token: bool, now: nat, nowIso: string)
    ensures var r := SignupPost(Some(b), bundled, token, now, nowIso);
      && (b.name == "" || b.email == "" || b.password == "" || b.role == "" <==>
            r == Rejected(400, "Missing required fields"))
      && (r == Rejected(400, "Invalid role. Must be buyer or seller") <==>
            b.name != "" && b.email != "" && b.password != "" && b.role != ""
            && b.role != "buyer" && b.role != "seller")
      && (r == Rejected(400, "Password must be at least 6 characters") <==>
            b.name != "" && b.email != "" && b.password != ""
            && (b.role == "buyer" || b.role == "seller") && |b.password| < 6)
      && (r.Rejected? && r.status == 409 <==>
            b.name != "" && b.email != "" && (b.role == "buyer" || b.role == "seller")
            && |b.password| >= 6 && Registered(bundled, b.email))
  {
  }

  /** A request is accepted exactly when every check passes. */
  lemma AcceptedIff(body: Option<SignupBody>, bundled: seq<Account>, token: bool, now: nat, nowIso: string)
    ensures SignupPost(body, bundled, token, now, nowIso).Created? <==>
      body.Some? && body.value.name != "" && body.value.email != ""
      && (body.value.role == "buyer" || body.value.role == "seller")
      && |body.value.password| >= 6 && !Registered(bundled, body.value.email)
  {
  }

  /**
   * What an accepted request creates: an account with the given name, email
   * and role and a fresh time-based id, which is the only thing added to the
   * bundled list; the administrator role cannot be requested.
   */
  lemma CreatedAccount(b: SignupBody, bundled: seq<Account>, token: bool, now: nat, nowIso: string)
    requires SignupPost(Some(b), bundled, token, now, nowIso).Created?
    ensures var r := SignupPost(Some(b), bundled, token, now, nowIso);
      && r.user.name == b.name && r.user.email == b.email && RoleName(r.user.role) == b.role
      && r.user.role != Admin && r.user.id == NewUserId(now)
      && (r.saveAttempt.Some? ==> r.saveAttempt.value == bundled + [r.user])
  {
  }

  /** `persistedToGitHub` reports whether a token is set, whatever the save does. */
  lemma PersistedFlagIsTokenFlag(b: SignupBody, bundled: seq<Account>, token: bool, now: nat, nowIso: string)
    requires SignupPost(Some(b), bundled, token, now, nowIso).Created?
    ensures SignupPost(Some(b), bundled, token, now, nowIso).persistedToGitHub == token
    ensures SignupPost(Some(b), bundled, token, now, nowIso).saveAttempt.Some? <==> token
  {
  }

  /**
   * Because the bundled list is never changed, a second signup with the same
   * email is accepted as well: the duplicate check only sees `users.json`.
   */
  lemma RepeatedSignupAccepted(b: SignupBody, bundled: seq<Account>, token: bool,
                               now1: nat, now2: nat, iso1: string, iso2: string)
    requires SignupPost(Some(b), bundled, token, now1, iso1).Created?
    ensures SignupPost(Some(b), bundled, token, now2, iso2).Created?
  {
  }
}
