/** `ThemeProvider`: the chosen theme (stored as whatever string the saved
    setting holds, since the stored value is cast rather than checked), the
    theme actually shown, and the persisted setting. */
module Theme {
  import opened Wrappers

  const StorageKey := "simple-request-theme"

  /** The provider's state and the one storage entry it uses. */
  datatype ThemeState = ThemeState(theme: string, actual: string, stored: Option<string>)

  /** `toggleTheme`'s successor: light, dark, system, and back to light;
      any other value goes to light. */
  function Next(t: string): (n: string)
    ensures n in ["light", "dark", "system"]
    ensures t == "light" ==> n == "dark"
    ensures t == "dark" ==> n == "system"
    ensures t !in ["light", "dark"] ==> n == "light"
  {
    if t == "light" then "dark" else if t == "dark" then "system" else "light"
  }

  /** The toggle is a three-cycle on the three themes, and one toggle
      brings any other value onto the cycle. */
  lemma ToggleCycle(t: string)
    ensures t in ["light", "dark", "system"] ==> Next(Next(Next(t))) == t
    ensures t in ["light", "dark", "system"] ==> Next(t) != t && Next(Next(t)) != t
    ensures Next(Next(Next(Next(t)))) == Next(t)
  {
  }

  /** The theme shown: the chosen one, except that `system` follows the
      host's dark preference. */
  function Actual(theme: string, prefersDark: bool): (a: string)
    ensures theme != "system" ==> a == theme
    ensures theme == "system" ==> (a == "dark" <==> prefersDark) && a in ["light", "dark"]
  {
    if theme == "system" then (if prefersDark then "dark" else "light") else theme
  }

  /** The first render: `system`, shown dark, before any effect runs. */
  function Initial(stored: Option<string>): (s: ThemeState)
    ensures s.theme == "system" && s.actual == "dark" && s.stored == stored
  {
    ThemeState("system", "dark", stored)
  }

  /** The mount effects: a non-empty saved setting is adopted, then the
      shown theme is resolved. */
  function Mount(stored: Option<string>, prefersDark: bool): (s: ThemeState)
    ensures s.stored == stored
    ensures s.theme == (if stored.Some? && stored.value != "" then stored.value else "system")
    ensures s.actual == Actual(s.theme, prefersDark)
  {
    var t := if stored.Some? && stored.value != "" then stored.value else Initial(stored).theme;
    ThemeState(t, Actual(t, prefersDark), stored)
  }

  /** `handleSetTheme`: the choice is made and persisted, and the shown
      theme follows it. */
  function SetTheme(s: ThemeState, t: string, prefersDark: bool): (r: ThemeState)
    ensures r.theme == t && r.stored == Some(t)
    ensures r.actual == Actual(t, prefersDark)
  {
    ThemeState(t, Actual(t, prefersDark), Some(t))
  }

  function Toggle(s: ThemeState, prefersDark: bool): (r: ThemeState)
    ensures r.theme == Next(s.theme) && r.stored == Some(r.theme)
  {
    SetTheme(s, Next(s.theme), prefersDark)
  }

  /** What is set survives a restart: mounting from the persisted setting
      restores the chosen theme. */
  lemma SetThenRemount(s: ThemeState, t: string, prefersDark: bool)
    requires t != ""
    ensures Mount(SetTheme(s, t, prefersDark).stored, prefersDark) == SetTheme(s, t, prefersDark)
  {
  }

  /** Three toggles from any of the three themes come back to it, stored. */
  lemma ThreeTogglesRestore(s: ThemeState, prefersDark: bool)
    requires s.theme in ["light", "dark", "system"]
    ensures Toggle(Toggle(Toggle(s, prefersDark), prefersDark), prefersDark).theme == s.theme
  {
    ToggleCycle(s.theme);
  }
}
