/**
 * The locale tables of the internationalisation setup (i18n/request.ts):
 * the supported locales, their display names, the default locale, the
 * right-to-left locales, and the request configuration, which always uses
 * the default locale for the static export. The client locale context
 * declares the same tables and uses these definitions.
 */
module I18n {
  import opened Wrappers

  datatype Locale = En | Ar | Zh

  /** The code a locale is written as in cookies and message file names. */
  function Code(l: Locale): string {
    match l
    case En => "en"
    case Ar => "ar"
    case Zh => "zh"
  }

  /** `locales` */
  const Locales: seq<Locale> := [En, Ar, Zh]

  /** `defaultLocale` */
  const DefaultLocale: Locale := En

  /** `rtlLocales` */
  const RtlLocales: seq<Locale> := [Ar]

  /** `localeNames`: each locale's name in its own language. */
  function LocaleName(l: Locale): (name: string)
    ensures |name| > 0
  {
    match l
    case En => "English"
    case Ar => "العربية"
    case Zh => "中文"
  }

  /** `isRTL(locale)`: `rtlLocales.includes(locale)`. */
  function IsRTL(l: Locale): (rtl: bool)
    ensures rtl <==> l == Ar
  {
    l in RtlLocales
  }

  /** `locales.includes(s)` for a string read from outside the program. */
  function ParseLocale(s: string): (r: Option<Locale>)
    ensures r.Some? ==> Code(r.value) == s && r.value in Locales
    ensures r.None? ==> forall l: Locale :: Code(l) != s
  {
    if s == "en" then Some(En)
    else if s == "ar" then Some(Ar)
    else if s == "zh" then Some(Zh)
    else None
  }

  /** Every locale is listed, and reading its code back gives it again. */
  lemma CodesRoundTrip(l: Locale)
    ensures l in Locales
    ensures ParseLocale(Code(l)) == Some(l)
  {
  }

  /** The default locale is a supported one, and so is every right-to-left locale. */
  lemma TablesConsistent()
    ensures DefaultLocale in Locales
    ensures forall l :: l in RtlLocales ==> l in Locales
    ensures !IsRTL(DefaultLocale)
  {
  }

  /**
   * The locale of the request configuration: the default, whatever the
   * request asks for (`requested` stands for anything the request carries).
   */
  function RequestLocale(requested: Option<string>): (l: Locale)
    ensures l == DefaultLocale && l in Locales
  {
    DefaultLocale
  }
}
