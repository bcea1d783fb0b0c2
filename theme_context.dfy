/** `ThemeProvider` of `src/contexts/ThemeContext.tsx`: one flag, stored as text under `darkMode`. */
module ThemeContext {
  import opened Wrappers
  import Storage

  const DarkModeKey := "darkMode"

  /** `darkMode.toString()`. */
  function ModeText(darkMode: bool): (r: string)
    ensures r == "true" || r == "false"
    ensures r == "true" <==> darkMode
  {
    if darkMode then "true" else "false"
  }

  /**
   * The `useState` initialiser: a stored value wins, and only the text `"true"` means
   * dark; with nothing stored the platform's `prefers-color-scheme: dark` decides.
   */
  function InitialDarkMode(saved: Option<string>, prefersDark: bool): (r: bool)
    ensures saved.Some? ==> (r <==> saved.value == "true")
    ensures saved.None? ==> r == prefersDark
  {
    match saved
    case Some(text) => text == "true"
    case None => prefersDark
  }

  /** Re-initialising from the stored text gives back the flag, whatever the platform says. */
  lemma InitialDarkModeOfModeText(darkMode: bool, prefersDark: bool)
    ensures InitialDarkMode(Some(ModeText(darkMode)), prefersDark) == darkMode
  {
  }

  class ThemeProvider {
    const storage: Storage.LocalStorage
    var darkMode: bool

    /** The persist effect has run on the current flag. */
    ghost predicate Valid()
      reads this, storage
    {
      DarkModeKey in storage.items && storage.items[DarkModeKey] == ModeText(darkMode)
    }

    /** Mounting: the initialiser, then the persist effect. */
    constructor (store: Storage.LocalStorage, prefersDark: bool)
      modifies store
      ensures Valid()
      ensures storage == store
      ensures darkMode == InitialDarkMode(old(store.GetItem(DarkModeKey)), prefersDark)
      ensures store.items == old(store.items)[DarkModeKey := ModeText(darkMode)]
    {
      storage := store;
      darkMode := InitialDarkMode(store.GetItem(DarkModeKey), prefersDark);
      new;
      storage.SetItem(DarkModeKey, ModeText(darkMode));
    }

    /** `toggleDarkMode()`, followed by the persist effect. */
    method ToggleDarkMode()
      requires Valid()
      modifies this`darkMode, storage
      ensures Valid()
      ensures darkMode == !old(darkMode)
      ensures storage.items == old(storage.items)[DarkModeKey := ModeText(darkMode)]
    {
      darkMode := !darkMode;
      storage.SetItem(DarkModeKey, ModeText(darkMode));
    }
  }

  /** Mounting a new provider on the same store gives back the current flag. */
  lemma ReloadRestoresDarkMode(t: ThemeProvider, prefersDark: bool)
    requires t.Valid()
    ensures InitialDarkMode(t.storage.GetItem(DarkModeKey), prefersDark) == t.darkMode
  {
  }

  /** Toggling twice restores the flag and the stored text. */
  method ToggleTwice(t: ThemeProvider)
    requires t.Valid()
    modifies t, t.storage
    ensures t.Valid()
    ensures t.darkMode == old(t.darkMode) && t.storage.items == old(t.storage.items)
  {
    t.ToggleDarkMode();
    t.ToggleDarkMode();
  }
}
