/** The settings store of src/contexts/ThemeContext.tsx: the theme mode and the daily
    notification switch, each mirrored into its own key-value record, and the theme record
    derived from the mode. */
module Theme {
  import opened Types

  /** The three modes of the `ThemeMode` union. */
  predicate IsThemeMode(s: string)
  {
    s == "light" || s == "dark" || s == "temple"
  }

  type ThemeMode = s: string | IsThemeMode(s) witness "light"

  /** The colour table of one mode. */
  datatype ThemeColors = ThemeColors(
    background: string,
    surface: string,
    cardBackground: string,
    primary: string,
    secondary: string,
    accent: string,
    text: string,
    textSecondary: string,
    textMuted: string,
    border: string,
    sanskrit: string)

  const LightColors := ThemeColors(
    "#FDF8F3", "#FFFFFF", "#FEF9F3", "#1A365D", "#C9A227", "#D4AF37",
    "#1A202C", "#4A5568", "#718096", "#E2D5C3", "#8B4513")

  const DarkColors := ThemeColors(
    "#1A1A2E", "#16213E", "#1F2937", "#E2D5C3", "#D4AF37", "#C9A227",
    "#F7FAFC", "#CBD5E0", "#A0AEC0", "#374151", "#D4AF37")

  const TempleColors := ThemeColors(
    "#2D1B0E", "#3D2817", "#4A3423", "#F5DEB3", "#FFD700", "#DAA520",
    "#FFF8DC", "#DEB887", "#D2B48C", "#5D4037", "#FFD700")

  /** `themes[mode]`: defined exactly for the three modes. A mode string installed from
      storage unchecked has no entry. */
  function Colors(mode: string): (r: Option<ThemeColors>)
    ensures r.Some? <==> IsThemeMode(mode)
    ensures mode == "light" ==> r == Some(LightColors)
    ensures mode == "dark" ==> r == Some(DarkColors)
    ensures mode == "temple" ==> r == Some(TempleColors)
  {
    if mode == "light" then Some(LightColors)
    else if mode == "dark" then Some(DarkColors)
    else if mode == "temple" then Some(TempleColors)
    else None
  }

  /** The derived `theme` record. */
  datatype ThemeRecord = ThemeRecord(mode: string, colors: Option<ThemeColors>, isTempleMode: bool)

  function ThemeOf(mode: string): (t: ThemeRecord)
    ensures t.mode == mode
    ensures t.isTempleMode <==> mode == "temple"
    ensures t.colors.Some? <==> IsThemeMode(mode)
    ensures t.isTempleMode ==> t.colors == Some(TempleColors)
    ensures mode == "light" ==> t.colors == Some(LightColors)
    ensures mode == "dark" ==> t.colors == Some(DarkColors)
  {
    ThemeRecord(mode, Colors(mode), mode == "temple")
  }

  /** `String(enabled)`. */
  function EncodeBool(b: bool): (s: string)
    ensures s == "true" || s == "false"
  {
    if b then "true" else "false"
  }

  /** The mode `loadSettings` leaves after a successful read: a non-empty stored string,
      installed unchecked, or the current mode when the record is absent or empty. */
  function LoadedMode(saved: Option<string>, current: string): (m: string)
    ensures saved.Some? && saved.value != "" ==> m == saved.value
    ensures saved.None? || saved.value == "" ==> m == current
  {
    if saved.Some? && saved.value != "" then saved.value else current
  }

  /** The switch `loadSettings` leaves after a successful read: true exactly when the
      stored string is "true", the current value when the record is absent. */
  function LoadedNotification(saved: Option<string>, current: bool): (b: bool)
    ensures saved.Some? ==> (b <==> saved.value == "true")
    ensures saved.None? ==> b == current
  {
    if saved.Some? then saved.value == "true" else current
  }

  /** Storing a switch value and loading it back gives the value, whatever was in memory. */
  lemma NotificationRoundTrip(b: bool, current: bool)
    ensures LoadedNotification(Some(EncodeBool(b)), current) == b
  {
  }

  /** Storing a mode and loading it back gives the mode, whatever was in memory. */
  lemma ModeRoundTrip(m: ThemeMode, current: string)
    ensures LoadedMode(Some(m), current) == m
  {
  }

  /** A stored theme record the app could have written itself: absent, empty or a mode. */
  predicate StoredModeOk(saved: Option<string>)
  {
    saved.None? || saved.value == "" || IsThemeMode(saved.value)
  }

  class SettingsStore {
    var themeMode: string
    var dailyNotification: bool
    /** The `themeMode` record of the key-value storage. */
    var storedTheme: Option<string>
    /** The `dailyNotification` record of the key-value storage. */
    var storedNotification: Option<string>

    /** The mode in memory has a colour table, and so would the stored one once loaded. */
    ghost predicate Valid()
      reads this
    {
      IsThemeMode(themeMode) && StoredModeOk(storedTheme)
    }

    /** A fresh provider: light mode, notifications on; storage holds whatever it held. */
    constructor (savedTheme: Option<string>, savedNotification: Option<string>)
      ensures themeMode == "light" && dailyNotification
      ensures storedTheme == savedTheme && storedNotification == savedNotification
      ensures StoredModeOk(savedTheme) ==> Valid()
    {
      themeMode := "light";
      dailyNotification := true;
      storedTheme := savedTheme;
      storedNotification := savedNotification;
    }

    /** `loadSettings`. Both records are read before either setting changes, so `readOk`
        false (either read throws) leaves both settings as they are. */
    method LoadSettings(readOk: bool)
      modifies this
      ensures storedTheme == old(storedTheme) && storedNotification == old(storedNotification)
      ensures themeMode == if readOk then LoadedMode(storedTheme, old(themeMode)) else old(themeMode)
      ensures dailyNotification == if readOk then LoadedNotification(storedNotification, old(dailyNotification)) else old(dailyNotification)
      ensures old(Valid()) ==> Valid()
    {
      if readOk {
        var savedTheme := storedTheme;
        var savedNotification := storedNotification;
        if savedTheme.Some? && savedTheme.value != "" {
          themeMode := savedTheme.value;
        }
        if savedNotification.Some? {
          dailyNotification := savedNotification.value == "true";
        }
      }
    }

    /** `setThemeMode`: memory first, then the record; `writeOk` false when the write
        throws, which leaves the record as it was. */
    method SetThemeMode(mode: ThemeMode, writeOk: bool)
      modifies this
      ensures themeMode == mode && dailyNotification == old(dailyNotification)
      ensures storedTheme == if writeOk then Some(mode) else old(storedTheme)
      ensures storedNotification == old(storedNotification)
      ensures old(Valid()) ==> Valid()
    {
      themeMode := mode;
      if writeOk {
        storedTheme := Some(mode);
      }
    }

    /** `setDailyNotification`: memory first, then the record as "true" or "false". */
    method SetDailyNotification(enabled: bool, writeOk: bool)
      modifies this
      ensures dailyNotification == enabled && themeMode == old(themeMode)
      ensures storedNotification == if writeOk then Some(EncodeBool(enabled)) else old(storedNotification)
      ensures storedTheme == old(storedTheme)
      ensures old(Valid()) ==> Valid()
    {
      dailyNotification := enabled;
      if writeOk {
        storedNotification := Some(EncodeBool(enabled));
      }
    }

    /** The `theme` value the provider exposes. */
    function CurrentTheme(): (t: ThemeRecord)
      reads this
      ensures t.mode == themeMode
      ensures t.isTempleMode <==> themeMode == "temple"
      ensures t.colors == Colors(themeMode)
      ensures Valid() ==> t.colors.Some?
    {
      ThemeOf(themeMode)
    }
  }

  /** Settings written and then read by the next launch of the provider come back. */
  method SetThenRelaunch(store: SettingsStore, mode: ThemeMode, enabled: bool) returns (next: SettingsStore)
    modifies store
    ensures fresh(next)
    ensures next.themeMode == mode && next.dailyNotification == enabled
    ensures next.Valid()
  {
    store.SetThemeMode(mode, true);
    store.SetDailyNotification(enabled, true);
    next := new SettingsStore(store.storedTheme, store.storedNotification);
    next.LoadSettings(true);
  }
}
