/** The theme provider: the chosen mode, its persisted form, dark-mode
    resolution against the system scheme, and the palette in use. */
module Theme {
  import opened Wrappers

  datatype ThemeMode = Light | Dark | System

  /** The mode a fresh provider starts in, before any stored preference is read. */
  const InitialMode := System

  /** The string under which a mode is persisted. */
  function ModeName(m: ThemeMode): (r: string)
    ensures r == "light" <==> m == Light
    ensures r == "dark" <==> m == Dark
    ensures r == "system" <==> m == System
  {
    match m
    case Light => "light"
    case Dark => "dark"
    case System => "system"
  }

  /** The mode a persisted string names, if it names one. */
  function ParseMode(s: string): (r: Option<ThemeMode>)
    ensures r.Some? <==> s == "light" || s == "dark" || s == "system"
    ensures r.Some? ==> ModeName(r.value) == s
  {
    if s == "light" then Some(Light)
    else if s == "dark" then Some(Dark)
    else if s == "system" then Some(System)
    else None
  }

  /** The persisted form of a mode reads back as that mode. */
  lemma ParseModeName(m: ThemeMode)
    ensures ParseMode(ModeName(m)) == Some(m)
  {
  }

  /** What reading the stored preference produced. */
  datatype StoredRead = Stored(value: string) | NothingStored | ReadFailed

  /** The mount effect: adopt a stored preference only when it names a mode. */
  function LoadPreference(current: ThemeMode, read: StoredRead): (r: ThemeMode)
    ensures read.Stored? && ParseMode(read.value).Some? ==> r == ParseMode(read.value).value
    ensures !(read.Stored? && ParseMode(read.value).Some?) ==> r == current
  {
    match read
    case Stored(v) =>
      (match ParseMode(v)
       case Some(m) => m
       case None => current)
    case _ => current
  }

  /** The mode once the provider has mounted and read the stored preference. */
  function MountedMode(read: StoredRead): (m: ThemeMode)
    ensures m != System ==> read.Stored? && ParseMode(read.value) == Some(m)
    ensures read.Stored? && ParseMode(read.value).Some? ==> m == ParseMode(read.value).value
  {
    LoadPreference(InitialMode, read)
  }

  /** The outcome of `setThemeMode`: the mode now in effect and the value the
      storage write carried. */
  datatype SetResult = SetResult(mode: ThemeMode, written: string)

  /** `setThemeMode`: write the choice, and switch to it only if the write
      succeeded. */
  function SetThemeMode(current: ThemeMode, requested: ThemeMode, writeSucceeds: bool): (r: SetResult)
    ensures r.written == ModeName(requested)
    ensures writeSucceeds ==> r.mode == requested
    ensures !writeSucceeds ==> r.mode == current
  {
    SetResult(if writeSucceeds then requested else current, ModeName(requested))
  }

  /** A saved choice survives a restart: a fresh provider that reads back what
      was written ends up in the chosen mode. */
  lemma SavedModeSurvivesRestart(current: ThemeMode, requested: ThemeMode)
    ensures var saved := SetThemeMode(current, requested, true);
            LoadPreference(InitialMode, Stored(saved.written)) == saved.mode
  {
    ParseModeName(requested);
  }

  /** What the platform reports as the colour scheme (possibly nothing). */
  datatype SystemScheme = SchemeLight | SchemeDark | SchemeUnknown

  /** Dark mode is on when chosen explicitly, or when following a dark system. */
  function IsDark(mode: ThemeMode, scheme: SystemScheme): (r: bool)
    ensures r <==> mode == Dark || (mode == System && scheme == SchemeDark)
  {
    if mode == System then scheme == SchemeDark else mode == Dark
  }

  /** Only "system" mode looks at the platform scheme; dark mode follows it
      exactly there and the explicit choice elsewhere. */
  lemma IsDarkResolution(mode: ThemeMode, scheme: SystemScheme)
    ensures mode == System ==> (IsDark(mode, scheme) <==> scheme == SchemeDark)
    ensures mode != System ==> (IsDark(mode, scheme) <==> mode == Dark)
    ensures mode != System ==> forall other :: IsDark(mode, other) == IsDark(mode, scheme)
  {
  }

  /** The colours of one theme. */
  datatype Palette = Palette(
    bg: string, card: string, text: string, textCompleted: string,
    textPlaceholder: string, brightBlue: string,
    checkGradientFrom: string, checkGradientTo: string)

  const LightTheme := Palette("#FAFAFA", "#FFFFFF", "#25273c", "#D1D2DA", "#9495A5", "#3A7CFD", "#55DDFF", "#C058F3")
  const DarkTheme := Palette("#171823", "#25273D", "#C8CBE7", "#4D5067", "#767992", "#3A7CFD", "#55DDFF", "#C058F3")

  /** The palette in use: the dark one exactly when dark mode is on. */
  function ActivePalette(isDark: bool): (r: Palette)
    ensures r == DarkTheme <==> isDark
    ensures r == LightTheme <==> !isDark
  {
    if isDark then DarkTheme else LightTheme
  }
}
