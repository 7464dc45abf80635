/**
 * The browser the client stores run in: the local-storage keys they use, the
 * cookie assignments, the `dark` class of the document element and the
 * reload request. Each store holds the same `Browser` object and may write
 * only the fields that stand for the keys it owns.
 */
module BrowserEnv {
  import opened Wrappers
  import opened Domain

  const CartKey := "ionecenter_cart"
  const UsersKey := "ionecenter_users"
  const AuthKey := "ionecenter_auth"
  const ThemeKey := "theme"
  const CurrencyKey := "ionecenter_currency"

  class Browser {
    /** local storage under `ionecenter_cart` */
    var cart: Slot<seq<CartItem>>
    /** local storage under `ionecenter_users`: the credential table */
    var users: Slot<seq<Credential>>
    /** local storage under `ionecenter_auth`: the persisted session */
    var auth: Slot<User>
    /** local storage under `theme` (a bare string, not JSON) */
    var theme: Option<string>
    /** local storage under `ionecenter_currency` (a bare string) */
    var currency: Option<string>
    /** what reading `document.cookie` gives */
    var cookie: string
    /** the strings assigned to `document.cookie`, oldest first */
    var cookieWrites: seq<string>
    /** whether the document element carries the `dark` class */
    var darkClass: bool
    /** whether `window.location.reload()` has been called */
    var reloadRequested: bool

    constructor (cart: Slot<seq<CartItem>>, users: Slot<seq<Credential>>, auth: Slot<User>,
                 theme: Option<string>, currency: Option<string>, cookie: string)
      ensures this.cart == cart && this.users == users && this.auth == auth
      ensures this.theme == theme && this.currency == currency && this.cookie == cookie
      ensures cookieWrites == [] && !darkClass && !reloadRequested
    {
      this.cart := cart;
      this.users := users;
      this.auth := auth;
      this.theme := theme;
      this.currency := currency;
      this.cookie := cookie;
      cookieWrites := [];
      darkClass := false;
      reloadRequested := false;
    }
  }
}
