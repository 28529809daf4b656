/** The light/dark theme switch: the theme the toggle button moves to and
    the icon shown for a theme. */
module Theme {
  import opened Optional

  const Light: string := "light"
  const Dark: string := "dark"

  /** Crescent moon, offered while the page is light. */
  const MoonIcon: string := "\U{1F319}"

  /** Sun (with the emoji presentation selector), offered while the page is dark. */
  const SunIcon: string := "\U{2600}\U{FE0F}"

  /** The theme after one click, given the `data-theme` attribute (None when
      the attribute is missing): "light" becomes "dark", anything else
      becomes "light". */
  function Toggled(current: Option<string>): (r: string)
    ensures r == Light || r == Dark
    ensures r == Dark <==> current == Some(Light)
  {
    if current == Some(Light) then Dark else Light
  }

  /** The icon for a theme. */
  function Icon(theme: string): (r: string)
    ensures r == MoonIcon <==> theme == Light
    ensures r == SunIcon <==> theme != Light
  {
    if theme == Light then MoonIcon else SunIcon
  }

  /** Every click changes the theme, and two clicks restore it once it is
      one of the two known themes. */
  lemma ToggleAlternates(current: Option<string>)
    ensures Toggled(Some(Toggled(current))) != Toggled(current)
    ensures Toggled(Some(Toggled(Some(Toggled(current))))) == Toggled(current)
  {
  }

  /** After a click the icon offers the other theme: the moon exactly when
      the page has just become light. */
  lemma IconAfterToggle(current: Option<string>)
    ensures Icon(Toggled(current)) == (if current == Some(Light) then SunIcon else MoonIcon)
  {
  }
}
