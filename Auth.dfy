/**
 * The client-side account store (contexts/AuthContext.tsx): a credential
 * table in local storage seeded with a built-in administrator, one nullable
 * session mirrored under the session key, and login, signup and logout.
 */
module Auth {
  import opened Wrappers
  import opened Domain
  import opened Strings
  import opened BrowserEnv

  /** The built-in administrator, without its password. */
  const DefaultAdmin := User("admin-1", "Admin", "admin@ionecenter.com", Admin)
  const DefaultAdminPassword := "admin123"

  /** The one record the table is seeded with. */
  const AdminCredential := Credential("admin-1", "Admin", "admin@ionecenter.com", DefaultAdminPassword, Admin)

  /**
   * `usersRaw ? JSON.parse(usersRaw) : []`: a missing table reads as empty,
   * an unparseable one makes the operation fail (`None`).
   */
  function TableOf(slot: Slot<seq<Credential>>): (r: Option<seq<Credential>>)
    ensures r.None? <==> slot.Unparseable?
    ensures slot.Absent? ==> r == Some([])
    ensures slot.Stored? ==> r == Some(slot.value)
  {
    match slot
    case Absent => Some([])
    case Unparseable => None
    case Stored(v) => Some(v)
  }

  /** Some record carries exactly this email and this password. */
  predicate Matches(c: Credential, email: string, password: string) {
    c.email == email && c.password == password
  }

  /** `users.find(u => u.email === email && u.password === password)` */
  function FindLogin(users: seq<Credential>, email: string, password: string): (r: Option<Credential>)
    ensures r.Some? <==> exists k :: 0 <= k < |users| && Matches(users[k], email, password)
    ensures r.Some? ==> r.value in users && Matches(r.value, email, password)
    decreases |users|
  {
    if |users| == 0 then None
    else if Matches(users[0], email, password) then Some(users[0])
    else
      assert forall k :: 1 <= k < |users| ==> users[k] == users[1..][k - 1];
      FindLogin(users[1..], email, password)
  }

  /** The record `login` picks is the first one that matches. */
  lemma {:induction false} FindLoginIsFirst(users: seq<Credential>, email: string, password: string, k: nat)
    requires k < |users| && Matches(users[k], email, password)
    requires forall j :: 0 <= j < k ==> !Matches(users[j], email, password)
    ensures FindLogin(users, email, password) == Some(users[k])
    decreases k
  {
    if k > 0 {
      FindLoginIsFirst(users[1..], email, password, k - 1);
    }
  }

  /** `users.some(u => u.email === email)` */
  predicate EmailTaken(users: seq<Credential>, email: string) {
    exists k :: 0 <= k < |users| && users[k].email == email
  }

  /** No two records share an email. */
  predicate UniqueEmails(users: seq<Credential>) {
    forall i, j :: 0 <= i < j < |users| ==> users[i].email != users[j].email
  }

  /** The id a signup at time `now` (milliseconds) receives: `user-${Date.now()}`. */
  function NewUserId(now: nat): (id: string)
    ensures StartsWith(id, "user-") && |id| > 5
  {
    "user-" + NatToString(now)
  }

  /** Signups at different times get different ids. */
  lemma NewUserIdInjective(m: nat, n: nat)
    requires NewUserId(m) == NewUserId(n)
    ensures m == n
  {
    assert NewUserId(m)[5..] == NatToString(m);
    assert NewUserId(n)[5..] == NatToString(n);
    NatToStringInjective(m, n);
  }

  function NewCredential(name: string, email: string, password: string, role: Role, now: nat): Credential {
    Credential(NewUserId(now), name, email, password, role)
  }

  /**
   * The table a `signup` writes, or `None` when it returns false (the table
   * does not parse, or the email is taken).
   */
  function SignupTable(slot: Slot<seq<Credential>>, name: string, email: string, password: string,
                       role: Role, now: nat): (r: Option<seq<Credential>>)
    ensures r.Some? <==> TableOf(slot).Some? && !EmailTaken(TableOf(slot).value, email)
    ensures r.Some? ==>
      var before := TableOf(slot).value;
      |r.value| == |before| + 1 && r.value[..|before|] == before
      && r.value[|before|] == Credential(NewUserId(now), name, email, password, role)
  {
    match TableOf(slot)
    case None => None
    case Some(users) =>
      if EmailTaken(users, email) then None
      else
        var r := users + [NewCredential(name, email, password, role, now)];
        assert r[..|users|] == users;
        Some(r)
  }

  /** A successful signup keeps emails unique. */
  lemma SignupKeepsEmailsUnique(slot: Slot<seq<Credential>>, name: string, email: string, password: string,
                                role: Role, now: nat)
    requires slot.Stored? ==> UniqueEmails(slot.value)
    requires SignupTable(slot, name, email, password, role, now).Some?
    ensures UniqueEmails(SignupTable(slot, name, email, password, role, now).value)
  {
    var users := TableOf(slot).value;
    var r := SignupTable(slot, name, email, password, role, now).value;
    forall i, j | 0 <= i < j < |r| ensures r[i].email != r[j].email {
      if j == |users| {
        assert r[i] == users[i];
      } else {
        assert r[i] == users[i] && r[j] == users[j];
      }
    }
  }

  /** After a successful signup, logging in with the same email and password finds the new record. */
  lemma {:induction false} SignupThenLogin(slot: Slot<seq<Credential>>, name: string, email: string,
                                           password: string, role: Role, now: nat)
    requires SignupTable(slot, name, email, password, role, now).Some?
    ensures FindLogin(SignupTable(slot, name, email, password, role, now).value, email, password)
         == Some(NewCredential(name, email, password, role, now))
  {
    var users := TableOf(slot).value;
    var r := SignupTable(slot, name, email, password, role, now).value;
    forall j | 0 <= j < |users| ensures !Matches(r[j], email, password) {
      assert r[j] == users[j];
    }
    FindLoginIsFirst(r, email, password, |users|);
  }

  /** The seeded table lets the administrator log in with the built-in password. */
  lemma AdminCanLogIn()
    ensures FindLogin([AdminCredential], "admin@ionecenter.com", "admin123") == Some(AdminCredential)
    ensures WithoutPassword(AdminCredential) == DefaultAdmin
  {
    FindLoginIsFirst([AdminCredential], "admin@ionecenter.com", "admin123", 0);
  }

  /**
   * The table after mounting: seeded with the administrator only when no
   * table is stored and the stored session (if any) parsed.
   */
  function InitialTable(auth: Slot<User>, users: Slot<seq<Credential>>): (r: Slot<seq<Credential>>)
    ensures users.Absent? && !auth.Unparseable? ==> r == Stored([AdminCredential])
    ensures !users.Absent? || auth.Unparseable? ==> r == users
  {
    if auth.Unparseable? then users
    else if users.Absent? then Stored([AdminCredential])
    else users
  }

  /** The session restored at mount: the stored one when it parses, else none. */
  function RestoredSession(auth: Slot<User>): (r: Option<User>)
    ensures r.Some? <==> auth.Stored?
    ensures r.Some? ==> r.value == auth.value
  {
    if auth.Stored? then Some(auth.value) else None
  }

  class AuthStore {
    /** the session: the signed-in user, without a password */
    var user: Option<User>
    var isLoading: bool
    const browser: Browser

    /** The persisted session slot holds the in-memory session, or nothing. */
    ghost predicate SessionPersisted()
      reads this, browser
    {
      match user
      case None => !browser.auth.Stored?
      case Some(u) => browser.auth == Stored(u)
    }

    /** Mounting the provider: restore the session, seed the table, stop loading. */
    constructor Mount(browser: Browser)
      modifies browser`users
      ensures this.browser == browser
      ensures user == RestoredSession(browser.auth)
      ensures browser.users == InitialTable(browser.auth, old(browser.users))
      ensures !isLoading
      ensures SessionPersisted()
    {
      this.browser := browser;
      user := None;
      isLoading := true;
      if browser.auth.Stored? {
        user := Some(browser.auth.value);
      }
      if !browser.auth.Unparseable? && browser.users.Absent? {
        browser.users := Stored([AdminCredential]);
      }
      isLoading := false;
    }

    method Login(email: string, password: string) returns (ok: bool)
      modifies this`user, browser`auth
      ensures var table := TableOf(browser.users);
        ok <==> table.Some? && FindLogin(table.value, email, password).Some?
      ensures ok ==> (user == Some(WithoutPassword(FindLogin(TableOf(browser.users).value, email, password).value))
                      && browser.auth == Stored(user.value))
      ensures ok ==> SessionPersisted()
      ensures !ok ==> user == old(user) && browser.auth == old(browser.auth)
    {
      var table := TableOf(browser.users);
      if table.None? {
        return false;
      }
      var found := FindLogin(table.value, email, password);
      if found.Some? {
        var session := WithoutPassword(found.value);
        user := Some(session);
        browser.auth := Stored(session);
        return true;
      }
      return false;
    }

    method Signup(name: string, email: string, password: string, role: Role, now: nat) returns (ok: bool)
      modifies this`user, browser`users, browser`auth
      ensures var table := SignupTable(old(browser.users), name, email, password, role, now);
        && (ok <==> table.Some?)
        && (ok ==> browser.users == Stored(table.value))
      ensures ok ==> var session := WithoutPassword(NewCredential(name, email, password, role, now));
        user == Some(session) && browser.auth == Stored(session)
      ensures ok ==> SessionPersisted()
      ensures !ok ==> user == old(user) && browser.users == old(browser.users) && browser.auth == old(browser.auth)
    {
      var table := TableOf(browser.users);
      if table.None? {
        return false;
      }
      var users := table.value;
      if EmailTaken(users, email) {
        return false;
      }
      var record := NewCredential(name, email, password, role, now);
      users := users + [record];
      browser.users := Stored(users);
      var session := WithoutPassword(record);
      user := Some(session);
      browser.auth := Stored(session);
      return true;
    }

    method Logout()
      modifies this`user, browser`auth
      ensures user.None? && browser.auth.Absent?
      ensures SessionPersisted()
    {
      user := None;
      browser.auth := Absent;
    }
  }

  /** Logging in after a successful signup on a fresh store signs in the new account again. */
  method SignupLogoutLogin(browser: Browser, now: nat)
    modifies browser`users, browser`auth
    ensures browser.auth == Stored(User(NewUserId(now), "Sam", "sam@example.com", Buyer))
  {
    browser.users := Absent;
    browser.auth := Absent;
    var store := new AuthStore.Mount(browser);
    assert browser.users == Stored([AdminCredential]);
    var ok := store.Signup("Sam", "sam@example.com", "secret1", Buyer, now);
    assert ok;
    store.Logout();
    assert store.user.None?;
    var back := store.Login("sam@example.com", "secret1");
    SignupThenLogin(Stored([AdminCredential]), "Sam", "sam@example.com", "secret1", Buyer, now);
    assert back;
    assert store.user == Some(User(NewUserId(now), "Sam", "sam@example.com", Buyer));
    var wrong := store.Login("sam@example.com", "nope");
    assert !wrong;
  }
}
