/**
 * The site chrome around a page (components/ConditionalLayout.tsx): the
 * header and the footer are left out on the account and seller dashboards,
 * which bring their own sidebar; the page itself is always rendered.
 */
module ConditionalLayout {
  import opened Strings

  /** `pathname.startsWith('/account') || pathname.startsWith('/seller')` in `ConditionalHeader`. */
  predicate HideHeader(pathname: string) {
    StartsWith(pathname, "/account") || StartsWith(pathname, "/seller")
  }

  /** The same test, written again in `ConditionalFooter`. */
  predicate HideFooter(pathname: string) {
    StartsWith(pathname, "/account") || StartsWith(pathname, "/seller")
  }

  /** What is drawn for a path. */
  datatype Chrome = Chrome(header: bool, children: bool, footer: bool)

  function Render(pathname: string): (c: Chrome)
    ensures c.children
    ensures c.header <==> !HideHeader(pathname)
    ensures c.footer <==> !HideFooter(pathname)
  {
    Chrome(!HideHeader(pathname), true, !HideFooter(pathname))
  }

  /** Header and footer are shown or hidden together on every path. */
  lemma HeaderFooterAgree(pathname: string)
    ensures Render(pathname).header == Render(pathname).footer
  {
  }

  /** Everything below the two dashboard prefixes is bare. */
  lemma DashboardPagesBare(rest: string)
    ensures !Render("/account" + rest).header && !Render("/account" + rest).footer
    ensures !Render("/seller" + rest).header && !Render("/seller" + rest).footer
  {
    assert ("/account" + rest)[..8] == "/account";
    assert ("/seller" + rest)[..7] == "/seller";
  }

  /** The prefixes have no trailing slash: `/sellers` and `/accounting` lose their chrome too. */
  lemma PrefixesAreTextual()
    ensures !Render("/sellers").header && !Render("/accounting").footer
  {
    DashboardPagesBare("s");
    DashboardPagesBare("ing");
  }

  /** Other pages, such as the home page and the catalog, keep the header and footer. */
  lemma PublicPagesDressed()
    ensures Render("/").header && Render("/").footer
    ensures Render("/products").header && Render("/products").footer
  {
    var p := "/products";
    assert p[..8][1] == 'p' && "/account"[1] == 'a' && "/seller"[1] == 's';
    assert p[..7][1] == 'p';
  }
}
