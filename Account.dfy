/**
 * The profile page (app/account/page.tsx): the form starts from the session,
 * and saving writes the new name and email into the credential table and the
 * persisted session.
 */
module Account {
  import opened Wrappers
  import opened Domain
  import opened BrowserEnv
  import Auth

  /** `users.map((u) => u.id === id ? { ...u, name, email } : u)` */
  function Renamed(users: seq<Credential>, id: string, name: string, email: string): (r: seq<Credential>)
    ensures |r| == |users|
    ensures forall k :: 0 <= k < |users| && users[k].id == id ==>
      r[k] == users[k].(name := name, email := email)
    ensures forall k :: 0 <= k < |users| && users[k].id != id ==> r[k] == users[k]
  {
    seq(|users|, k requires 0 <= k < |users| =>
      if users[k].id == id then users[k].(name := name, email := email) else users[k])
  }

  /**
   * After a save, the account's own password works with the new email: the
   * id, password and role of the renamed records are kept.
   */
  lemma SaveKeepsLogin(users: seq<Credential>, id: string, name: string, email: string, k: nat)
    requires k < |users| && users[k].id == id
    ensures Auth.FindLogin(Renamed(users, id, name, email), email, users[k].password).Some?
  {
    var r := Renamed(users, id, name, email);
    assert Auth.Matches(r[k], email, users[k].password);
  }

  /** The profile form of one page load. */
  class AccountPage {
    var name: string
    var email: string
    var saved: bool
    const session: Option<User>
    const browser: Browser

    /** The form starts from the session's name and email. */
    constructor Mount(browser: Browser, session: Option<User>)
      ensures this.browser == browser && this.session == session
      ensures session.Some? ==> name == session.value.name && email == session.value.email
      ensures session.None? ==> name == "" && email == ""
      ensures !saved
    {
      this.browser := browser;
      this.session := session;
      name := "";
      email := "";
      saved := false;
      if session.Some? {
        name := session.value.name;
        email := session.value.email;
      }
    }

    /** Editing a field of the form. */
    method Edit(newName: string, newEmail: string)
      modifies this`name, this`email
      ensures name == newName && email == newEmail
    {
      name := newName;
      email := newEmail;
    }

    /**
     * `handleSave`: without a session nothing happens; a table that does not
     * parse aborts before any write (the error is swallowed); otherwise the
     * renamed table and the renamed session are stored. The in-memory
     * session is not touched.
     */
    method HandleSave()
      modifies this`saved, browser`users, browser`auth
      ensures session.None? || browser.users.Unparseable? ==>
        browser.users == old(browser.users) && browser.auth == old(browser.auth) && saved == old(saved)
      ensures session.Some? && !old(browser.users).Unparseable? ==>
        var table := if old(browser.users).Stored? then old(browser.users).value else [];
        browser.users == Stored(Renamed(table, session.value.id, name, email))
        && browser.auth == Stored(session.value.(name := name, email := email))
        && saved
    {
      if session.None? {
        return;
      }
      if browser.users.Unparseable? {
        return;
      }
      var table := if browser.users.Stored? then browser.users.value else [];
      var u := session.value;
      browser.users := Stored(Renamed(table, u.id, name, email));
      browser.auth := Stored(u.(name := name, email := email));
      saved := true;
    }
  }
}
