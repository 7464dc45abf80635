/**
 * The signup form (app/signup/page.tsx): the passwords must agree and be at
 * least six characters long before the account store is asked to sign up,
 * and any refusal by the store is reported as a taken email.
 */
module SignupPage {
  import opened Wrappers
  import opened Domain
  import opened BrowserEnv
  import Auth

  const MismatchError := "Passwords do not match"
  const LengthError := "Password must be at least 6 characters"
  const TakenError := "Email already exists"
  const MinLength := 6

  /** The form's own checks, in order: the match, then the length. */
  function FormError(password: string, confirmPassword: string): (e: Option<string>)
    ensures e.None? <==> password == confirmPassword && |password| >= MinLength
    ensures password != confirmPassword ==> e == Some(MismatchError)
    ensures password == confirmPassword && |password| < MinLength ==> e == Some(LengthError)
  {
    if password != confirmPassword then Some(MismatchError)
    else if |password| < MinLength then Some(LengthError)
    else None
  }

  /** The mismatch is reported even when the password is also too short. */
  lemma MismatchReportedFirst(password: string, confirmPassword: string)
    requires password != confirmPassword && |password| < MinLength
    ensures FormError(password, confirmPassword) == Some(MismatchError)
  {
  }

  class SignupForm {
    var name: string
    var email: string
    var password: string
    var confirmPassword: string
    var role: Role
    var error: string
    var isLoading: bool
    var navigatedHome: bool
    const auth: Auth.AuthStore

    /** Only the two self-service roles can be chosen. */
    ghost predicate RoleSelectable()
      reads this
    {
      role == Buyer || role == Seller
    }

    constructor (auth: Auth.AuthStore)
      ensures this.auth == auth
      ensures name == "" && email == "" && password == "" && confirmPassword == ""
      ensures role == Buyer && error == "" && !isLoading && !navigatedHome
      ensures RoleSelectable()
    {
      this.auth := auth;
      name := "";
      email := "";
      password := "";
      confirmPassword := "";
      role := Buyer;
      error := "";
      isLoading := false;
      navigatedHome := false;
    }

    /** The Buy and Sell buttons. */
    method ChooseRole(sell: bool)
      modifies this`role
      ensures role == (if sell then Seller else Buyer)
      ensures RoleSelectable()
    {
      role := if sell then Seller else Buyer;
    }

    /**
     * `handleSubmit` at time `now`: the error is cleared; a form error stops
     * the submission before the store is called; otherwise the store's
     * `signup` decides, a success navigates home and a failure shows the
     * taken-email message, and loading ends.
     */
    method HandleSubmit(now: nat) returns (called: bool)
      requires RoleSelectable()
      modifies this`error, this`isLoading, this`navigatedHome
      modifies auth`user, auth.browser`users, auth.browser`auth
      ensures RoleSelectable()
      ensures called <==> FormError(password, confirmPassword).None?
      ensures !called ==> (error == FormError(password, confirmPassword).value
        && isLoading == old(isLoading) && navigatedHome == old(navigatedHome)
        && auth.user == old(auth.user) && auth.browser.users == old(auth.browser.users)
        && auth.browser.auth == old(auth.browser.auth))
      ensures called ==>
        var table := Auth.SignupTable(old(auth.browser.users), name, email, password, role, now);
        !isLoading
        && (table.Some? ==> error == "" && navigatedHome && auth.browser.users == Stored(table.value))
        && (table.None? ==> (error == TakenError && navigatedHome == old(navigatedHome)
                             && auth.browser.users == old(auth.browser.users)))
    ensures called ==>
      var table := Auth.SignupTable(old(auth.browser.users), name, email, password, role, now);
      && (table.Some? ==> auth.user == Some(WithoutPassword(Auth.NewCredential(name, email, password, role, now)))
                          && auth.SessionPersisted())
      && (table.None? ==> auth.user == old(auth.user) && auth.browser.auth == old(auth.browser.auth))
    {
      error := "";
      var formError := FormError(password, confirmPassword);
      if formError.Some? {
        error := formError.value;
        return false;
      }
      isLoading := true;
      var success := auth.Signup(name, email, password, role, now);
      if success {
        navigatedHome := true;
      } else {
        error := TakenError;
      }
      isLoading := false;
      called := true;
    }
  }
}
