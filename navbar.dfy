/** The navigation bar's theme switch: the theme state, initialised from the
    stored preference, and the effect that mirrors every theme into storage
    and onto the document element. */
module Navbar {
  import opened Wrappers

  /** `localStorage.getItem('theme') || 'light'`: a missing or empty stored
      value falls back to "light". */
  function InitialTheme(stored: Option<string>): (theme: string)
    ensures theme != ""
    ensures stored.Some? && stored.value != "" ==> theme == stored.value
    ensures stored.None? || stored.value == "" ==> theme == "light"
  {
    if stored.Some? && stored.value != "" then stored.value else "light"
  }

  /** The toggle's updater: "light" becomes "dark", anything else "light". */
  function Toggled(theme: string): (next: string)
    ensures next == "light" || next == "dark"
    ensures next == "dark" <==> theme == "light"
  {
    if theme == "light" then "dark" else "light"
  }

  /** Two toggles restore exactly the themes the switch knows. */
  lemma ToggleTwice(theme: string)
    ensures Toggled(Toggled(theme)) == theme <==> theme == "light" || theme == "dark"
  {
  }

  /** An unknown stored theme does not come back after two toggles. */
  lemma ToggleUnknownTheme()
    ensures Toggled("blue") == "light" && Toggled(Toggled("blue")) == "dark"
  {
  }

  /** The button's icon: the moon offers dark mode, the sun light mode. */
  datatype Icon = Moon | Sun

  function ToggleIcon(theme: string): (icon: Icon)
    ensures icon == Moon <==> theme == "light"
  {
    if theme == "light" then Moon else Sun
  }

  class ThemeSwitch {
    var theme: string
    /** The `theme` entry of local storage. */
    var stored: Option<string>
    /** The `data-theme` attribute of the document element. */
    var dataTheme: Option<string>

    /** Storage and document agree with the theme, which is never empty. */
    predicate Synced()
      reads this
    {
      theme != "" && stored == Some(theme) && dataTheme == Some(theme)
    }

    /** Mounting: the theme comes from storage, then the effect writes it back
        to storage and onto the document. */
    constructor (storedTheme: Option<string>)
      ensures theme == InitialTheme(storedTheme)
      ensures Synced()
    {
      theme := InitialTheme(storedTheme);
      new;
      Sync();
    }

    /** The persist effect. */
    method Sync()
      requires theme != ""
      modifies this
      ensures theme == old(theme) && Synced()
    {
      dataTheme := Some(theme);
      stored := Some(theme);
    }

    /** The toggle button, followed by the effect the theme change triggers. */
    method Toggle()
      modifies this
      ensures theme == Toggled(old(theme))
      ensures Synced()
    {
      theme := Toggled(theme);
      Sync();
    }
  }
}
