/**
 * The theme switch (components/ThemeToggle.tsx): a `dark` flag restored from
 * local storage under `theme`, mirrored on the document's `dark` class, and
 * flipped and stored by `toggle`.
 */
module Theme {
  import opened Wrappers
  import opened BrowserEnv

  /** `saved ? saved === 'dark' : false`: only the stored text `dark` means dark. */
  function DarkFromStored(saved: Option<string>): (dark: bool)
    ensures dark <==> saved == Some("dark")
  {
    if saved.Some? && saved.value != "" then saved.value == "dark" else false
  }

  /** `next ? 'dark' : 'light'`: the text `toggle` stores. */
  function StoredValue(dark: bool): (s: string)
    ensures s == "dark" || s == "light"
  {
    if dark then "dark" else "light"
  }

  /** The stored text is read back as the state it was written for. */
  lemma StoredValueRoundTrip(dark: bool)
    ensures DarkFromStored(Some(StoredValue(dark))) == dark
  {
  }

  class ThemeToggle {
    var dark: bool
    const browser: Browser

    /** The document's class shows the current state. */
    ghost predicate Shown()
      reads this, browser
    {
      browser.darkClass == dark
    }

    /** Mounting: light, then the stored choice, applied to the document. */
    constructor Mount(browser: Browser)
      modifies browser`darkClass
      ensures this.browser == browser
      ensures dark <==> browser.theme == Some("dark")
      ensures Shown()
    {
      this.browser := browser;
      dark := false;
      var isDark := DarkFromStored(browser.theme);
      dark := isDark;
      browser.darkClass := isDark;
    }

    /** `toggle`: the state flips, is stored, and the document follows. */
    method Toggle()
      modifies this, browser`theme, browser`darkClass
      ensures dark == !old(dark)
      ensures browser.theme == Some(StoredValue(dark))
      ensures DarkFromStored(browser.theme) == dark
      ensures Shown()
    {
      var next := !dark;
      dark := next;
      browser.theme := Some(StoredValue(next));
      browser.darkClass := next;
    }
  }

  /**
   * Two toggles restore the state, and the stored text too when it already
   * was the one written for that state.
   */
  method ToggleTwice(t: ThemeToggle)
    modifies t, t.browser`theme, t.browser`darkClass
    ensures t.dark == old(t.dark)
    ensures old(t.browser.theme) == Some(StoredValue(old(t.dark))) ==> t.browser.theme == old(t.browser.theme)
    ensures t.Shown()
  {
    t.Toggle();
    t.Toggle();
  }
}
