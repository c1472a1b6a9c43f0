/** The theme slice (store/themeSlice.ts): a mode and an accent colour,
    changed by three reducers. */
module ThemeSlice {

  datatype Mode = Light | Dark | Custom

  datatype ThemeState = ThemeState(mode: Mode, accentColor: string)

  datatype ThemeAction =
    | SetThemeMode(newMode: Mode)
    | SetAccentColor(color: string)
    | SetTheme(theme: ThemeState)

  const SpotifyGreen: string := "#1DB954"

  /** `initialState`: dark mode with the Spotify green accent. */
  function InitialState(): (s: ThemeState)
    ensures s.mode == Dark && s.accentColor == SpotifyGreen
  {
    ThemeState(Dark, SpotifyGreen)
  }

  /** The slice reducer. Choosing an accent colour also switches to custom
      mode. */
  function Reduce(s: ThemeState, a: ThemeAction): (r: ThemeState)
    ensures a.SetThemeMode? ==> r.mode == a.newMode && r.accentColor == s.accentColor
    ensures a.SetAccentColor? ==> r.accentColor == a.color && r.mode == Custom
    ensures a.SetTheme? ==> r == a.theme
  {
    match a
    case SetThemeMode(m) => s.(mode := m)
    case SetAccentColor(c) => s.(accentColor := c, mode := Custom)
    case SetTheme(t) => ThemeState(t.mode, t.accentColor)
  }

  /** Every reducer is idempotent: dispatching the same action twice is
      the same as dispatching it once. */
  lemma ReduceIdempotent(s: ThemeState, a: ThemeAction)
    ensures Reduce(Reduce(s, a), a) == Reduce(s, a)
  {
  }

  /** The result of a reducer depends on the previous state only through
      the fields the action leaves alone: `setTheme` forgets it entirely
      and `setAccentColor` forgets the mode. */
  lemma ReduceForgets(s: ThemeState, t: ThemeState, a: ThemeAction)
    ensures a.SetTheme? ==> Reduce(s, a) == Reduce(t, a)
    ensures a.SetAccentColor? ==> Reduce(s, a) == Reduce(s.(mode := t.mode), a)
  {
  }

  /** Changing the mode after choosing an accent keeps that accent. */
  lemma ModeAfterAccentKeepsAccent(s: ThemeState, color: string, m: Mode)
    ensures Reduce(Reduce(s, SetAccentColor(color)), SetThemeMode(m)) == ThemeState(m, color)
  {
  }
}

/** The theme hook (hooks/useTheme.ts): which palette the current theme
    selects, the start-up decision between a stored theme and the system
    colour scheme, and the two dispatching helpers. */
module ThemeHook {
  import opened ThemeSlice

  /** `isDarkMode`: dark mode, or custom mode with exactly the black
      accent `#000000`. */
  function IsDarkMode(s: ThemeState): (dark: bool)
    ensures dark ==> s.mode != Light
  {
    s.mode == Dark || (s.mode == Custom && s.accentColor == "#000000")
  }

  /** `isLightMode`: light mode only, whatever the accent. */
  function IsLightMode(s: ThemeState): (light: bool)
    ensures light ==> !IsDarkMode(s)
  {
    s.mode == Light
  }

  /** The two flags mode by mode: dark mode is dark, light mode is light,
      and custom mode is never light and is dark exactly when the accent is
      black. */
  lemma FlagsByMode(s: ThemeState)
    ensures s.mode == Dark ==> IsDarkMode(s) && !IsLightMode(s)
    ensures s.mode == Light ==> IsLightMode(s) && !IsDarkMode(s)
    ensures s.mode == Custom ==> !IsLightMode(s) && (IsDarkMode(s) <==> s.accentColor == "#000000")
  {
  }

  datatype Palette = Palette(
    background: string,
    card: string,
    text: string,
    subText: string,
    primary: string,
    secondary: string,
    error: string)

  /** `colors`. */
  function Colors(s: ThemeState): (p: Palette)
    ensures p.primary == s.accentColor
    ensures p.error == "#f44336"
    ensures p.text == "#FFFFFF" <==> p.background == "#000000"
    ensures p.background == "#000000" <==> IsDarkMode(s)
  {
    var dark := IsDarkMode(s);
    Palette(
      if dark then "#000000" else "#FFFFFF",
      if dark then "#1E1E1E" else "#F6F6F6",
      if dark then "#FFFFFF" else "#000000",
      if dark then "#B3B3B3" else "#535353",
      s.accentColor,
      if dark then "#282828" else "#E0E0E0",
      "#f44336")
  }

  /** The two flags never hold together; in custom mode with any accent
      other than black neither holds, and that theme gets the same
      palette as light mode apart from the accent. */
  lemma CustomNonBlackIsNeither(s: ThemeState)
    ensures !(IsDarkMode(s) && IsLightMode(s))
    ensures s.mode == Custom && s.accentColor != "#000000" ==>
      !IsDarkMode(s) && !IsLightMode(s) &&
      Colors(s) == Colors(ThemeState(Light, s.accentColor))
  {
  }

  /** Background, card, text, sub-text and secondary colours depend on the
      theme only through `isDarkMode`. */
  lemma PaletteDependsOnDarkness(s: ThemeState, t: ThemeState)
    requires IsDarkMode(s) == IsDarkMode(t)
    ensures Colors(s).(primary := "") == Colors(t).(primary := "")
  {
  }

  /** What `useColorScheme` reports: light, dark, or nothing. */
  datatype SystemScheme = SystemLight | SystemDark | NoScheme

  /** The outcome of reading and parsing the stored `appTheme` entry.
      A missing key and an empty string are both falsy and count as not
      saved; a read or parse error is `LoadFailed`. */
  datatype StoredTheme = Saved(theme: ThemeState) | NotSaved | LoadFailed

  /** `systemColorScheme || 'dark'`. */
  function FallbackMode(system: SystemScheme): (m: Mode)
    ensures m != Custom
    ensures system == SystemLight <==> m == Light
  {
    match system
    case SystemLight => Light
    case SystemDark => Dark
    case NoScheme => Dark
  }

  /** The action `loadTheme` dispatches on start-up. */
  function LoadThemeAction(stored: StoredTheme, system: SystemScheme): ThemeAction
  {
    match stored
    case Saved(t) => SetTheme(t)
    case NotSaved => SetThemeMode(FallbackMode(system))
    case LoadFailed => SetThemeMode(FallbackMode(system))
  }

  /** The theme after start-up: a stored theme is applied wholesale;
      without one, or when loading fails, only the mode changes, to the
      system scheme or to dark when there is none. */
  function LoadTheme(s: ThemeState, stored: StoredTheme, system: SystemScheme): (r: ThemeState)
    ensures stored.Saved? ==> r == stored.theme
    ensures !stored.Saved? ==> r.accentColor == s.accentColor && r.mode == FallbackMode(system)
    ensures !stored.Saved? && system == NoScheme ==> r.mode == Dark
  {
    Reduce(s, LoadThemeAction(stored, system))
  }

  /** A missing entry and a failed load are treated alike. */
  lemma LoadFailureLikeMissing(s: ThemeState, system: SystemScheme)
    ensures LoadTheme(s, LoadFailed, system) == LoadTheme(s, NotSaved, system)
  {
  }

  /** `toggleThemeMode` dispatches `setThemeMode`: only the mode changes. */
  function ToggleThemeMode(s: ThemeState, m: Mode): (r: ThemeState)
    ensures r.mode == m && r.accentColor == s.accentColor
  {
    Reduce(s, SetThemeMode(m))
  }

  /** `setCustomAccentColor` dispatches `setAccentColor`, so it also
      switches to custom mode; picking black therefore turns the dark
      palette on. */
  function SetCustomAccentColor(s: ThemeState, color: string): (r: ThemeState)
    ensures r.mode == Custom && r.accentColor == color
    ensures IsDarkMode(r) <==> color == "#000000"
    ensures Colors(r).primary == color
  {
    Reduce(s, SetAccentColor(color))
  }
}
