/** The light/dark theme of the page (js/theme.js): the first choice, the
    toggle, the explicit choice, the reaction to the system preference, the
    palette lookup and the `theme-color` meta. `localStorage` is a field; the
    10 ms delay before a theme applies is left out. */
module Theme {
  import opened Wrappers

  /** The constructor's choice: the saved theme, else the system's dark
      preference, else light. */
  function InitialTheme(saved: Option<string>, systemPrefersDark: bool): string {
    if saved.Some? && saved.value != "" then saved.value
    else if systemPrefersDark then "dark"
    else "light"
  }

  /** `toggleTheme`'s choice. */
  function Toggled(theme: string): string {
    if theme == "light" then "dark" else "light"
  }

  /** `updateThemeColorMeta(theme)`'s colour. */
  function ThemeColor(theme: string): string {
    if theme == "dark" then "#121a2a" else "#3498db"
  }

  /** Toggling always lands on one of the two themes, swaps them, and sends any
      other value to light. */
  lemma ToggledSpec(theme: string)
    ensures Toggled(theme) == "dark" <==> theme == "light"
    ensures Toggled(theme) == "light" || Toggled(theme) == "dark"
    ensures theme == "light" || theme == "dark" ==> Toggled(Toggled(theme)) == theme
  {
  }

  /** The first theme is never empty, and without a saved one it follows the
      system preference. */
  lemma InitialThemeSpec(saved: Option<string>, systemPrefersDark: bool)
    ensures InitialTheme(saved, systemPrefersDark) != ""
    ensures (saved.None? || saved == Some("")) ==>
      (InitialTheme(saved, systemPrefersDark) == "dark" <==> systemPrefersDark)
  {
  }

  const LightPalette: map<string, string> := map[
    "primary" := "#2c3e50", "secondary" := "#3498db", "success" := "#27ae60", "warning" := "#f39c12",
    "danger" := "#e74c3c", "bg" := "#f5f7fa", "text" := "#2d3748", "textSecondary" := "#718096",
    "card" := "#ffffff", "border" := "#e2e8f0"]

  const DarkPalette: map<string, string> := map[
    "primary" := "#63b3ed", "secondary" := "#4299e1", "success" := "#48bb78", "warning" := "#f6ad55",
    "danger" := "#fc8181", "bg" := "#121a2a", "text" := "#e2e8f0", "textSecondary" := "#a0aec0",
    "card" := "#1a2332", "border" := "#2d3748"]

  function Lookup(palette: map<string, string>, name: string): Option<string> {
    if name in palette then Some(palette[name]) else None
  }

  const UndefinedPalette := "TypeError: Cannot read properties of undefined"

  /** `colors[theme][name] || colors.light[name]`: reading a palette that does
      not exist throws. */
  function Color(theme: string, name: string): Result<Option<string>, string> {
    if theme == "light" then Ok(Lookup(LightPalette, name))
    else if theme == "dark" then Ok(if name in DarkPalette then Some(DarkPalette[name]) else Lookup(LightPalette, name))
    else Err(UndefinedPalette)
  }

  /** For either theme a colour is its own palette's entry and an unknown name
      is `undefined`; any other theme throws. */
  lemma ColorSpec(theme: string, name: string)
    ensures theme == "light" ==> Color(theme, name) == Ok(Lookup(LightPalette, name))
    ensures theme == "dark" ==> Color(theme, name) == Ok(Lookup(DarkPalette, name))
    ensures theme != "light" && theme != "dark" ==> Color(theme, name).Err?
  {
    if theme == "dark" && name !in DarkPalette {
      assert name !in LightPalette;
    }
  }

  class ThemeManager {
    var theme: string
    /** `localStorage.getItem('theme')`. */
    var saved: Option<string>
    /** The `content` of the `theme-color` meta. */
    var metaColor: string
    /** Whether the toggle switch is checked. */
    var switchChecked: bool

    /** What `applyTheme` leaves behind: the theme saved, the meta and the
        switch matching it. */
    predicate Applied()
      reads this
    {
      theme != "" && saved == Some(theme) && metaColor == ThemeColor(theme) && switchChecked == (theme == "dark")
    }

    /** `new ThemeManager()`: pick the first theme, then apply it. */
    constructor(stored: Option<string>, systemPrefersDark: bool)
      ensures theme == InitialTheme(stored, systemPrefersDark) && Applied()
    {
      theme := InitialTheme(stored, systemPrefersDark);
      saved := stored;
      metaColor := "";
      switchChecked := false;
      new;
      ApplyTheme(theme);
    }

    /** `applyTheme(t)`. */
    method ApplyTheme(t: string)
      requires t != ""
      modifies this
      ensures theme == t && Applied()
    {
      saved := Some(t);
      theme := t;
      switchChecked := t == "dark";
      metaColor := ThemeColor(t);
    }

    /** `toggleTheme()`. */
    method ToggleTheme()
      modifies this
      ensures theme == Toggled(old(theme)) && Applied()
    {
      ApplyTheme(Toggled(theme));
    }

    /** `setTheme(t)`: only `light` and `dark` are applied. */
    method SetTheme(t: string)
      modifies this
      ensures t == "light" || t == "dark" ==> theme == t && Applied()
      ensures t != "light" && t != "dark" ==> unchanged(this)
    {
      if t == "light" || t == "dark" {
        ApplyTheme(t);
      }
    }

    /** The system preference changed: applied only while nothing is saved. */
    method SystemPreferenceChanged(prefersDark: bool)
      modifies this
      ensures old(saved).Some? && old(saved).value != "" ==> unchanged(this)
      ensures !(old(saved).Some? && old(saved).value != "") ==>
        theme == (if prefersDark then "dark" else "light") && Applied()
    {
      if saved.None? || saved.value == "" {
        ApplyTheme(if prefersDark then "dark" else "light");
      }
    }

    /** `isDarkTheme()`. */
    predicate IsDarkTheme()
      reads this
    {
      theme == "dark"
    }

    /** `getColor(name)`. */
    function GetColor(name: string): (r: Result<Option<string>, string>)
      reads this
      ensures r == Color(theme, name)
    {
      Color(theme, name)
    }
  }

  /** After a theme is applied the switch is checked exactly when the theme is
      dark, and the meta colour is the dark background exactly then. */
  lemma SwitchMatchesTheme(m: ThemeManager)
    requires m.Applied()
    ensures m.switchChecked <==> m.IsDarkTheme()
    ensures m.metaColor == "#121a2a" <==> m.IsDarkTheme()
  {
    if !m.IsDarkTheme() {
      assert m.metaColor[1] != "#121a2a"[1];
    }
  }

  /** Once a theme has been applied the system preference is never followed
      again, since applying always saves. */
  method SystemPreferenceIgnoredAfterApply(m: ThemeManager, prefersDark: bool)
    requires m.Applied()
    modifies m
    ensures m.theme == old(m.theme) && m.Applied()
  {
    m.SystemPreferenceChanged(prefersDark);
  }
}
