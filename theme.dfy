/** The theme toggle (script.js lines 4-21): the `data-theme` attribute of the
    document element and the `theme` entry of local storage. */
module Theme {
  import opened Common

  /** The attribute applied at load: the stored string, unless the lookup
      yields nothing or the empty string (both falsy for `||`), then 'dark'. */
  function InitialTheme(saved: Option<string>): (r: string)
    ensures r != ""
    ensures r == "dark" || saved == Some(r)
    ensures saved.Some? && saved.value != "" ==> r == saved.value
  {
    if saved.Some? && saved.value != "" then saved.value else "dark"
  }

  /** The theme a click switches to. Any attribute other than 'light' counts as dark. */
  function Flipped(current: string): (r: string)
    ensures r == "dark" <==> current == "light"
    ensures r == "light" || r == "dark"
  {
    if current == "light" then "dark" else "light"
  }

  /** Two clicks restore the attribute exactly when it was one of the two
      themes; any other stored string comes back as 'dark'. */
  lemma FlipTwice(t: string)
    ensures Flipped(Flipped(t)) == t <==> t == "light" || t == "dark"
    ensures t != "light" ==> Flipped(Flipped(t)) == "dark"
  {
  }

  /** What a click persists is what the next page load applies. */
  lemma SavedThemeReloads(current: string)
    ensures InitialTheme(Some(Flipped(current))) == Flipped(current)
  {
  }

  class ThemeToggle {
    /** `html.getAttribute('data-theme')` */
    var attribute: string
    /** `localStorage.getItem('theme')` */
    var stored: Option<string>

    /** Page load: apply the saved theme (or 'dark'); storage is not written. */
    constructor Load(saved: Option<string>)
      ensures attribute == InitialTheme(saved) && stored == saved
    {
      attribute := InitialTheme(saved);
      stored := saved;
    }

    /** True once storage and attribute agree. */
    predicate Persisted()
      reads this
    {
      stored == Some(attribute)
    }

    /** The click handler: flip, apply, persist. */
    method Click()
      modifies this
      ensures attribute == Flipped(old(attribute))
      ensures attribute == "dark" <==> old(attribute) == "light"
      ensures Persisted()
    {
      var theme := Flipped(attribute);
      attribute := theme;
      stored := Some(theme);
    }
  }
}
