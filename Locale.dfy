/**
 * The client locale preference (contexts/LocaleContext.tsx): the locale
 * starts as English, is taken from the `NEXT_LOCALE` cookie when that names
 * a supported locale, and `setLocale` writes the cookie and asks for a
 * reload. The locale tables are those of the `I18n` module.
 */
module Locale {
  import opened Wrappers
  import opened Strings
  import opened BrowserEnv
  import opened I18n

  const CookiePrefix := "NEXT_LOCALE="

  /** `entries.find((row) => row.startsWith(prefix))`, as an index. */
  function FindEntry(entries: seq<string>, prefix: string): (r: Option<nat>)
    ensures r.Some? ==> r.value < |entries| && StartsWith(entries[r.value], prefix)
    ensures r.Some? ==> forall k :: 0 <= k < r.value ==> !StartsWith(entries[k], prefix)
    ensures r.None? ==> forall k :: 0 <= k < |entries| ==> !StartsWith(entries[k], prefix)
    decreases |entries|
  {
    if |entries| == 0 then None
    else if StartsWith(entries[0], prefix) then Some(0)
    else
      var rest := FindEntry(entries[1..], prefix);
      if rest.None? then None else Some(rest.value + 1)
  }

  /** An entry that starts with the cookie prefix splits at `=` into at least two pieces. */
  lemma EntrySplits(entry: string)
    requires StartsWith(entry, CookiePrefix)
    ensures |Split(entry, "=")| >= 2
    ensures Split(entry, "=")[1] == Split(entry[|CookiePrefix|..], "=")[0]
  {
    var name := "NEXT_LOCALE";
    assert entry == name + "=" + entry[|CookiePrefix|..];
    SplitAtFirst(name, entry[|CookiePrefix|..], "=");
  }

  /**
   * The cookie value: the first `'; '`-separated entry starting with
   * `NEXT_LOCALE=`, split at `=`, second piece.
   */
  function CookieLocale(cookie: string): (v: Option<string>)
    ensures v.None? <==> FindEntry(Split(cookie, "; "), CookiePrefix).None?
  {
    var entries := Split(cookie, "; ");
    var found := FindEntry(entries, CookiePrefix);
    if found.None? then None
    else
      EntrySplits(entries[found.value]);
      Some(Split(entries[found.value], "=")[1])
  }

  /**
   * The value read is the text after `NEXT_LOCALE=` up to the next `=`, or
   * to the end of the entry.
   */
  lemma CookieValueBetweenEquals(cookie: string)
    requires CookieLocale(cookie).Some?
    ensures var entries := Split(cookie, "; ");
      var entry := entries[FindEntry(entries, CookiePrefix).value];
      var after := entry[|CookiePrefix|..];
      var v := CookieLocale(cookie).value;
      StartsWith(after, v) && !Contains(v, "=")
      && (v == after || StartsWith(after[|v|..], "="))
  {
    var entries := Split(cookie, "; ");
    var entry := entries[FindEntry(entries, CookiePrefix).value];
    EntrySplits(entry);
    FirstPiece(entry[|CookiePrefix|..], "=");
  }

  /**
   * The locale after hydration: the cookie's value when it is non-empty and
   * one of the supported locales, English otherwise.
   */
  function Hydrated(cookie: string): (l: Locale)
    ensures CookieLocale(cookie).None? ==> l == En
    ensures CookieLocale(cookie).Some? && ParseLocale(CookieLocale(cookie).value).None? ==> l == En
    ensures CookieLocale(cookie).Some? && ParseLocale(CookieLocale(cookie).value).Some? ==>
      l == ParseLocale(CookieLocale(cookie).value).value
  {
    var v := CookieLocale(cookie);
    if v.Some? && v.value != "" && ParseLocale(v.value).Some? then ParseLocale(v.value).value
    else En
  }

  /** The cookie string `setLocale` assigns. */
  function LocaleCookie(l: Locale): (c: string)
    ensures StartsWith(c, CookiePrefix + Code(l) + "; ")
  {
    var c := CookiePrefix + Code(l) + "; path=/; max-age=31536000";
    assert c[..|CookiePrefix + Code(l) + "; "|] == CookiePrefix + Code(l) + "; ";
    c
  }

  /** The entry `NEXT_LOCALE=<code>` carries exactly the code as its value. */
  lemma EntryOfLocale(l: Locale)
    ensures StartsWith(CookiePrefix + Code(l), CookiePrefix)
    ensures |Split(CookiePrefix + Code(l), "=")| >= 2 && Split(CookiePrefix + Code(l), "=")[1] == Code(l)
  {
    var entry := CookiePrefix + Code(l);
    assert entry[..|CookiePrefix|] == CookiePrefix && entry[|CookiePrefix|..] == Code(l);
    EntrySplits(entry);
    NoSeparatorStart(Code(l), "=");
    NoSeparatorSinglePiece(Code(l), "=");
  }

  /** The entry `NEXT_LOCALE=<code>` holds no `;`, so it is never cut by the split. */
  lemma EntryHasNoSemicolon(l: Locale)
    ensures forall k :: 0 <= k < |CookiePrefix + Code(l)| ==> (CookiePrefix + Code(l))[k] != ';'
  {
  }

  /** A cookie text whose first entry names a locale hydrates to that locale. */
  lemma HydrateFirstEntry(l: Locale, rest: string)
    ensures Hydrated(CookiePrefix + Code(l) + "; " + rest) == l
    ensures Hydrated(CookiePrefix + Code(l)) == l
  {
    var entry := CookiePrefix + Code(l);
    EntryHasNoSemicolon(l);
    EntryOfLocale(l);
    SplitAtFirst(entry, rest, "; ");
    NoSeparatorStart(entry, "; ");
    NoSeparatorSinglePiece(entry, "; ");
    CodesRoundTrip(l);
  }

  /** Reading back the cookie `setLocale` writes gives the chosen locale. */
  lemma HydrateReadsLocaleCookie(l: Locale)
    ensures Hydrated(LocaleCookie(l)) == l
  {
    HydrateFirstEntry(l, "path=/; max-age=31536000");
    assert LocaleCookie(l) == CookiePrefix + Code(l) + "; " + "path=/; max-age=31536000";
  }

  /** The locale preference of one page load. */
  class LocaleStore {
    var locale: Locale
    const browser: Browser

    /** Mounting the provider: English, then the cookie's locale when it is supported. */
    constructor Mount(browser: Browser)
      ensures this.browser == browser
      ensures locale == Hydrated(browser.cookie)
    {
      this.browser := browser;
      locale := En;
      var v := CookieLocale(browser.cookie);
      if v.Some? && v.value != "" && ParseLocale(v.value).Some? {
        locale := ParseLocale(v.value).value;
      }
    }

    /** `setLocale`: the locale becomes active, the cookie is written and a reload is asked for. */
    method SetLocale(l: Locale)
      modifies this, browser`cookieWrites, browser`reloadRequested
      ensures locale == l
      ensures browser.cookieWrites == old(browser.cookieWrites) + [LocaleCookie(l)]
      ensures browser.reloadRequested
    {
      locale := l;
      browser.cookieWrites := browser.cookieWrites + [LocaleCookie(l)];
      browser.reloadRequested := true;
    }

    /** `isRTL` of the context: the active locale is a right-to-left one. */
    function IsRTLNow(): (rtl: bool)
      reads this
      ensures rtl <==> locale == Ar
    {
      IsRTL(locale)
    }
  }
}
