/**
 * The dashboard sidebar (components/Sidebar.tsx): which navigation items are
 * highlighted for the current path, and which label each shows.
 */
module Sidebar {
  import opened Wrappers
  import opened Strings

  datatype SidebarItem = SidebarItem(href: string, labelText: string, icon: string, translationKey: Option<string>)

  /** `pathname === href || pathname.startsWith(href + '/')` */
  predicate IsActive(pathname: string, href: string) {
    pathname == href || StartsWith(pathname, href + "/")
  }

  /**
   * The rule by path segments: the path begins with `href` and either ends
   * there or goes on with a `/`.
   */
  lemma ActiveIffSegmentPrefix(pathname: string, href: string)
    ensures IsActive(pathname, href) <==>
      StartsWith(pathname, href) && (|pathname| == |href| || pathname[|href|] == '/')
  {
    if StartsWith(pathname, href) && |pathname| > |href| && pathname[|href|] == '/' {
      assert pathname[..|href + "/"|] == pathname[..|href|] + [pathname[|href|]];
    }
    if StartsWith(pathname, href + "/") {
      assert pathname[..|href|] == (href + "/")[..|href|];
    }
  }

  /** A path that only shares text with `href` is not under it: `/sellerx` is not under `/seller`. */
  lemma TextualPrefixNotActive(href: string, more: string)
    requires |more| > 0 && more[0] != '/'
    ensures !IsActive(href + more, href)
  {
    ActiveIffSegmentPrefix(href + more, href);
    assert (href + more)[|href|] == more[0];
  }

  /** An item is active on every page below it, so an ancestor and its child can both be lit. */
  lemma AncestorActive(href: string, rest: string)
    ensures IsActive(href + "/" + rest, href)
  {
    assert (href + "/" + rest)[..|href + "/"|] == href + "/";
  }

  /** The label shown: the translation when a non-empty key is set, the plain label otherwise. */
  function ShownLabel(item: SidebarItem, translate: string -> string): (shown: string)
    ensures item.translationKey.None? || item.translationKey.value == "" ==> shown == item.labelText
    ensures item.translationKey.Some? && item.translationKey.value != "" ==>
      shown == translate(item.translationKey.value)
  {
    if item.translationKey.Some? && item.translationKey.value != "" then translate(item.translationKey.value)
    else item.labelText
  }
}
