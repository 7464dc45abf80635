/**
 * The admin dashboard (app/admin/page.tsx): the credential table listed with
 * counts per role, the deletion of accounts other than one's own, and the
 * rule that only an administrator sees the page.
 */
module Admin {
  import opened Wrappers
  import opened Domain
  import opened BrowserEnv

  datatype Stats = Stats(totalUsers: nat, buyers: nat, sellers: nat)

  /** `users.filter((u) => u.role === role).length` */
  function CountRole(users: seq<Credential>, role: Role): (n: nat)
    ensures n <= |users|
    decreases |users|
  {
    if |users| == 0 then 0
    else (if users[0].role == role then 1 else 0) + CountRole(users[1..], role)
  }

  /** The three figures the dashboard shows for a list. */
  function StatsOf(users: seq<Credential>): (s: Stats)
    ensures s.totalUsers == |users|
    ensures s.buyers == CountRole(users, Buyer) && s.sellers == CountRole(users, Seller)
  {
    Stats(|users|, CountRole(users, Buyer), CountRole(users, Seller))
  }

  /** Buyers and sellers are different accounts, so together they are at most the total. */
  lemma {:induction false} BuyersAndSellersWithinTotal(users: seq<Credential>)
    ensures StatsOf(users).buyers + StatsOf(users).sellers + CountRole(users, Admin) == StatsOf(users).totalUsers
    decreases |users|
  {
    if |users| > 0 {
      BuyersAndSellersWithinTotal(users[1..]);
    }
  }

  /** `users.filter((u) => u.id !== userId)` */
  function WithoutId(users: seq<Credential>, userId: string): (r: seq<Credential>)
    ensures |r| <= |users|
    ensures forall k :: 0 <= k < |r| ==> r[k].id != userId && r[k] in users
    decreases |users|
  {
    if |users| == 0 then []
    else (if users[0].id != userId then [users[0]] else []) + WithoutId(users[1..], userId)
  }

  /** The filter works piece by piece, so the kept accounts stay in order. */
  lemma {:induction false} WithoutIdAppend(a: seq<Credential>, b: seq<Credential>, userId: string)
    ensures WithoutId(a + b, userId) == WithoutId(a, userId) + WithoutId(b, userId)
    decreases |a|
  {
    if |a| == 0 {
      assert a + b == b;
    } else {
      assert (a + b)[0] == a[0] && (a + b)[1..] == a[1..] + b;
      WithoutIdAppend(a[1..], b, userId);
      var head := if a[0].id != userId then [a[0]] else [];
      assert WithoutId(a + b, userId) == head + WithoutId(a[1..] + b, userId);
    }
  }

  /** One account is kept exactly when its id is not the deleted one. */
  lemma WithoutIdOfOne(c: Credential, userId: string)
    ensures WithoutId([c], userId) == if c.id != userId then [c] else []
  {
    assert [c][1..] == [];
  }

  /** Every account with another id survives the deletion. */
  lemma {:induction false} WithoutIdKeepsOthers(users: seq<Credential>, userId: string, c: Credential)
    requires c in users && c.id != userId
    ensures c in WithoutId(users, userId)
    decreases |users|
  {
    if users[0] != c {
      assert c in users[1..];
      WithoutIdKeepsOthers(users[1..], userId, c);
    }
  }

  /** Only an administrator's session may see the dashboard once loading is over. */
  predicate CanView(isLoading: bool, session: Option<User>) {
    !isLoading && session.Some? && session.value.role == Admin
  }

  /** The redirect to the login page: loading is over and the session is not an administrator's. */
  predicate RedirectsToLogin(isLoading: bool, session: Option<User>) {
    !isLoading && (session.None? || session.value.role != Admin)
  }

  /** After loading, the page is either shown or left for the login page, never both. */
  lemma ViewOrRedirect(session: Option<User>)
    ensures CanView(false, session) != RedirectsToLogin(false, session)
    ensures CanView(false, session) <==> session.Some? && session.value.role == Admin
  {
  }

  datatype DeleteOutcome = OwnAccount | Declined | Deleted

  /** The dashboard state: the listed accounts and their figures. */
  class AdminPage {
    var users: seq<Credential>
    var stats: Stats
    const session: Option<User>
    const browser: Browser

    /** The figures describe the listed accounts. */
    ghost predicate StatsCurrent()
      reads this
    {
      stats == StatsOf(users)
    }

    /**
     * Loading: the stored table (empty when there is none); a table that does
     * not parse leaves the initial empty list and zero figures.
     */
    constructor Mount(browser: Browser, session: Option<User>)
      ensures this.browser == browser && this.session == session
      ensures users == (if browser.users.Stored? then browser.users.value else [])
      ensures StatsCurrent()
    {
      this.browser := browser;
      this.session := session;
      users := [];
      stats := Stats(0, 0, 0);
      if !browser.users.Unparseable? {
        var all := if browser.users.Stored? then browser.users.value else [];
        users := all;
        stats := StatsOf(all);
      }
    }

    /**
     * `handleDeleteUser(userId, …)` with `confirmed` the answer to the
     * confirmation dialog.
     */
    method HandleDeleteUser(userId: string, confirmed: bool) returns (outcome: DeleteOutcome)
      requires StatsCurrent()
      modifies this`users, this`stats, browser`users
      ensures StatsCurrent()
      ensures outcome == OwnAccount <==> session.Some? && session.value.id == userId
      ensures outcome == Declined <==> !(session.Some? && session.value.id == userId) && !confirmed
      ensures outcome != Deleted ==> users == old(users) && browser.users == old(browser.users)
      ensures outcome == Deleted ==>
        users == WithoutId(old(users), userId) && browser.users == Stored(users)
    {
      if session.Some? && session.value.id == userId {
        return OwnAccount;
      }
      if !confirmed {
        return Declined;
      }
      var updated := WithoutId(users, userId);
      browser.users := Stored(updated);
      users := updated;
      stats := StatsOf(updated);
      outcome := Deleted;
    }
  }
}
