/**
 * The currency preference (contexts/CurrencyContext.tsx): three currencies
 * with a symbol and a fixed rate against the US dollar, the active currency
 * kept in local storage under `ionecenter_currency`, and the conversion and
 * formatting of prices given in dollars.
 *
 * Prices are exact reals here; `toFixed(2)` is rendered from the exact value
 * (round half away from zero), not from its binary floating-point form.
 */
module Currency {
  import opened Wrappers
  import opened Strings
  import opened BrowserEnv

  datatype Currency = USD | SAR | CNY

  function CurrencyCode(c: Currency): string {
    match c
    case USD => "USD"
    case SAR => "SAR"
    case CNY => "CNY"
  }

  /** `currencies` */
  const Currencies: seq<Currency> := [USD, SAR, CNY]

  /** `currencySymbols` */
  function Symbol(c: Currency): (sym: string)
    ensures |sym| > 0 && !IsDigit(sym[0]) && sym[0] != '-'
  {
    match c
    case USD => "$"
    case SAR => "ر.س"
    case CNY => "¥"
  }

  /** `exchangeRates`: units of the currency per US dollar. */
  function Rate(c: Currency): (rate: real)
    ensures rate >= 1.0
  {
    match c
    case USD => 1.0
    case SAR => 3.75
    case CNY => 7.24
  }

  /** `currencies.includes(s)` for a stored string. */
  function ParseCurrency(s: string): (r: Option<Currency>)
    ensures r.Some? ==> CurrencyCode(r.value) == s && r.value in Currencies
    ensures r.None? ==> forall c: Currency :: CurrencyCode(c) != s
  {
    if s == "USD" then Some(USD)
    else if s == "SAR" then Some(SAR)
    else if s == "CNY" then Some(CNY)
    else None
  }

  /**
   * The currency after hydration from the stored value: the stored currency
   * when it is a recognised, non-empty code, and the default USD otherwise.
   */
  function Hydrated(saved: Option<string>): (c: Currency)
    ensures saved.None? ==> c == USD
    ensures saved.Some? && ParseCurrency(saved.value).None? ==> c == USD
    ensures saved.Some? && ParseCurrency(saved.value).Some? ==> c == ParseCurrency(saved.value).value
  {
    if saved.Some? && saved.value != "" && ParseCurrency(saved.value).Some? then
      ParseCurrency(saved.value).value
    else USD
  }

  /** What `setCurrency` stores is read back as the same currency. */
  lemma HydrateAfterSet(c: Currency)
    ensures Hydrated(Some(CurrencyCode(c))) == c
  {
  }

  /** `convertPrice`: the dollar price times the active rate. */
  function ConvertPrice(c: Currency, priceInUSD: real): (r: real)
    ensures c == USD ==> r == priceInUSD
    ensures priceInUSD >= 0.0 ==> r >= priceInUSD
    ensures r / Rate(c) == priceInUSD
  {
    priceInUSD * Rate(c)
  }

  /** The nearest whole number of hundredths to `m`, halves rounded up. */
  function Hundredths(m: real): (n: nat)
    requires m >= 0.0
    ensures n as real - 0.5 <= m * 100.0 < n as real + 0.5
  {
    (m * 100.0 + 0.5).Floor
  }

  function Abs(x: real): (a: real)
    ensures a >= 0.0 && (a == x || a == -x)
  {
    if x < 0.0 then -x else x
  }

  /** Two decimal digits for `k` below 100, with a leading zero. */
  function TwoDigits(k: nat): (r: string)
    requires k < 100
    ensures |r| == 2 && IsDigit(r[0]) && IsDigit(r[1])
    ensures DigitsValue(r) == k
  {
    var r := [DigitChar(k / 10), DigitChar(k % 10)];
    assert r[..1] == [r[0]] && [r[0]][..0] == [];
    assert DigitsValue([r[0]]) == k / 10;
    r
  }

  /**
   * `x.toFixed(2)`: a minus sign for a negative value, the whole part in
   * decimal, a point and exactly two decimals.
   */
  function ToFixed2(x: real): (r: string)
    ensures |r| >= 4 && r[|r| - 3] == '.' && IsDigit(r[|r| - 2]) && IsDigit(r[|r| - 1])
    ensures (r[0] == '-') <==> x < 0.0
    ensures forall i :: (if x < 0.0 then 1 else 0) <= i < |r| - 3 ==> IsDigit(r[i])
  {
    var n := Hundredths(Abs(x));
    (if x < 0.0 then "-" else "") + NatToString(n / 100) + "." + TwoDigits(n % 100)
  }

  /**
   * Reading the text of `ToFixed2(x)` back, whole part times 100 plus the
   * decimals, gives the hundredths nearest to the magnitude of `x`.
   */
  lemma ToFixed2ReadsBack(x: real)
    ensures var r := ToFixed2(x);
      var body := if x < 0.0 then r[1..] else r;
      var whole := body[..|body| - 3];
      (forall i :: 0 <= i < |whole| ==> IsDigit(whole[i]))
      && DigitsValue(whole) * 100 + DigitsValue(body[|body| - 2..]) == Hundredths(Abs(x))
  {
    var n := Hundredths(Abs(x));
    var r := ToFixed2(x);
    var body := NatToString(n / 100) + "." + TwoDigits(n % 100);
    assert r == (if x < 0.0 then "-" else "") + body;
    assert (if x < 0.0 then r[1..] else r) == body;
    assert body[..|body| - 3] == NatToString(n / 100);
    assert body[|body| - 2..] == TwoDigits(n % 100);
    NatToStringRoundTrip(n / 100);
  }

  /** `formatPrice`: the converted amount with the currency's symbol in its place. */
  function FormatPrice(c: Currency, priceInUSD: real): (r: string)
    ensures c == SAR ==> r == ToFixed2(ConvertPrice(c, priceInUSD)) + " " + Symbol(c)
    ensures c != SAR ==> r == Symbol(c) + ToFixed2(ConvertPrice(c, priceInUSD))
  {
    var amount := ToFixed2(ConvertPrice(c, priceInUSD));
    var symbol := Symbol(c);
    if c == CNY then symbol + amount
    else if c == SAR then amount + " " + symbol
    else symbol + amount
  }

  /**
   * The amount text of a formatted price, found by taking the currency's
   * symbol off the side where `formatPrice` puts it.
   */
  function AmountText(c: Currency, text: string): (r: Option<string>)
    ensures r.Some? ==> |r.value| <= |text|
  {
    if c == SAR then
      (if EndsWith(text, " " + Symbol(c)) then Some(text[..|text| - |Symbol(c)| - 1]) else None)
    else
      (if StartsWith(text, Symbol(c)) then Some(text[|Symbol(c)|..]) else None)
  }

  /** Taking the symbol off a formatted price leaves the two-decimal amount. */
  lemma AmountTextOfFormatPrice(c: Currency, priceInUSD: real)
    ensures AmountText(c, FormatPrice(c, priceInUSD)) == Some(ToFixed2(ConvertPrice(c, priceInUSD)))
  {
    var amount := ToFixed2(ConvertPrice(c, priceInUSD));
    var text := FormatPrice(c, priceInUSD);
    if c == SAR {
      assert text[|text| - |" " + Symbol(c)|..] == " " + Symbol(c);
      assert text[..|text| - |Symbol(c)| - 1] == amount;
    } else {
      assert text[..|Symbol(c)|] == Symbol(c);
      assert text[|Symbol(c)|..] == amount;
    }
  }

  /** The formatted text tells the currency: different currencies never format alike. */
  lemma FormatPriceShowsCurrency(c: Currency, d: Currency, p: real, q: real)
    requires FormatPrice(c, p) == FormatPrice(d, q)
    ensures c == d
  {
    var s := FormatPrice(c, p);
    if c == SAR || d == SAR {
      var amount := ToFixed2(ConvertPrice(SAR, if c == SAR then p else q));
      assert s[0] == amount[0];
      assert IsDigit(amount[0]) || amount[0] == '-';
    } else {
      assert s[0] == Symbol(c)[0] && s[0] == Symbol(d)[0];
    }
  }

  /**
   * The currency preference of one page load, with the storage it reads
   * and writes.
   */
  class CurrencyStore {
    var currency: Currency
    const browser: Browser

    /** Mounting the provider: USD, then the stored currency when it is recognised. */
    constructor Mount(browser: Browser)
      ensures this.browser == browser
      ensures currency == Hydrated(browser.currency)
    {
      this.browser := browser;
      currency := USD;
      var saved := browser.currency;
      if saved.Some? && saved.value != "" && ParseCurrency(saved.value).Some? {
        currency := ParseCurrency(saved.value).value;
      }
    }

    /** `setCurrency`: the new currency becomes active and is stored as its code. */
    method SetCurrency(c: Currency)
      modifies this, browser`currency
      ensures currency == c
      ensures browser.currency == Some(CurrencyCode(c))
    {
      currency := c;
      browser.currency := Some(CurrencyCode(c));
    }

    /** The context's `convertPrice`, at the active currency's rate. */
    function Convert(priceInUSD: real): (r: real)
      reads this
      ensures r / Rate(currency) == priceInUSD
    {
      ConvertPrice(currency, priceInUSD)
    }

    /** The context's `formatPrice`: the converted amount, two decimals, with the active symbol. */
    function Format(priceInUSD: real): (r: string)
      reads this
      ensures AmountText(currency, r) == Some(ToFixed2(Convert(priceInUSD)))
    {
      AmountTextOfFormatPrice(currency, priceInUSD);
      FormatPrice(currency, priceInUSD)
    }
  }

  /** A chosen currency survives a reload: the next page load starts with it. */
  method ChooseThenReload(browser: Browser, c: Currency) returns (reloaded: Currency)
    modifies browser`currency
    ensures reloaded == c
  {
    var store := new CurrencyStore.Mount(browser);
    store.SetCurrency(c);
    var next := new CurrencyStore.Mount(browser);
    HydrateAfterSet(c);
    reloaded := next.currency;
  }
}
