/** The colour theme and appearance of the frontend (`ThemeContext`): six
    colour themes with a light and a dark palette of five CSS variables each,
    the appearance mode ("light", "dark" or "system"), their persistence in
    local storage, and the effect writing the palette onto the document root.
    The `prefers-color-scheme: dark` media query is a boolean parameter. */
module ThemeContext {
  import opened Wrappers

  datatype ColorTheme = Pink | Purple | Blue | Green | Orange | Red

  /** One palette: the values of the five CSS variables it sets. */
  datatype Palette = Palette(primary: string, primaryForeground: string, accent: string,
                             accentForeground: string, ring: string)

  const ColorThemeKey: string := "loveos-color-theme"
  const AppearanceKey: string := "loveos-appearance-mode"

  /** The variables every palette sets, in the order they are written. */
  const VariableNames: seq<string> :=
    ["--primary", "--primary-foreground", "--accent", "--accent-foreground", "--ring"]

  function ThemeName(t: ColorTheme): string {
    match t
    case Pink => "pink"
    case Purple => "purple"
    case Blue => "blue"
    case Green => "green"
    case Orange => "orange"
    case Red => "red"
  }

  /** The theme a stored name stands for, if it names one. */
  function ParseColorTheme(s: string): (r: Option<ColorTheme>)
    ensures r.Some? ==> ThemeName(r.value) == s
  {
    if s == "pink" then Some(Pink)
    else if s == "purple" then Some(Purple)
    else if s == "blue" then Some(Blue)
    else if s == "green" then Some(Green)
    else if s == "orange" then Some(Orange)
    else if s == "red" then Some(Red)
    else None
  }

  /** Every theme's name reads back as that theme. */
  lemma ThemeNameRoundTrip(t: ColorTheme)
    ensures ParseColorTheme(ThemeName(t)) == Some(t)
  {
  }

  /** `colorThemes[theme][dark ? 'dark' : 'light']`. */
  function PaletteOf(t: ColorTheme, dark: bool): Palette {
    match t
    case Pink =>
      if dark then Palette("328 85% 70%", "336 83% 17%", "343 87% 15%", "351 94% 71%", "328 85% 70%")
      else Palette("333 71% 50%", "327 73% 97%", "355 100% 97%", "349 89% 60%", "333 71% 50%")
    case Purple =>
      if dark then Palette("271 91% 65%", "271 100% 10%", "271 50% 15%", "271 91% 65%", "271 91% 65%")
      else Palette("271 76% 53%", "270 100% 98%", "270 100% 97%", "271 76% 53%", "271 76% 53%")
    case Blue =>
      if dark then Palette("217 91% 65%", "217 100% 10%", "217 50% 15%", "217 91% 65%", "217 91% 65%")
      else Palette("217 91% 60%", "217 100% 98%", "217 100% 97%", "217 91% 60%", "217 91% 60%")
    case Green =>
      if dark then Palette("142 69% 58%", "142 100% 10%", "142 50% 15%", "142 69% 58%", "142 69% 58%")
      else Palette("142 76% 36%", "142 100% 98%", "142 100% 97%", "142 76% 36%", "142 76% 36%")
    case Orange =>
      if dark then Palette("24 95% 64%", "24 100% 10%", "24 50% 15%", "24 95% 64%", "24 95% 64%")
      else Palette("24 95% 53%", "24 100% 98%", "24 100% 97%", "24 95% 53%", "24 95% 53%")
    case Red =>
      if dark then Palette("0 84% 65%", "0 100% 10%", "0 50% 15%", "0 84% 65%", "0 84% 65%")
      else Palette("0 84% 60%", "0 100% 98%", "0 100% 97%", "0 84% 60%", "0 84% 60%")
  }

  /** `Object.entries(palette)`: variable name and value, in declaration order. */
  function Entries(p: Palette): (r: seq<(string, string)>)
    ensures |r| == |VariableNames|
    ensures forall k :: 0 <= k < |r| ==> r[k].0 == VariableNames[k]
  {
    [("--primary", p.primary), ("--primary-foreground", p.primaryForeground),
     ("--accent", p.accent), ("--accent-foreground", p.accentForeground), ("--ring", p.ring)]
  }

  /** Setting each entry in turn (`root.style.setProperty`). */
  function SetAll(style: map<string, string>, entries: seq<(string, string)>): map<string, string> {
    if entries == [] then style
    else SetAll(style, entries[..|entries| - 1])[entries[|entries| - 1].0 := entries[|entries| - 1].1]
  }

  predicate DistinctNames(entries: seq<(string, string)>) {
    forall i, j :: 0 <= i < j < |entries| ==> entries[i].0 != entries[j].0
  }

  /** With distinct names, every entry ends up set to its own value and every
      other property is left as it was. */
  lemma {:induction false} SetAllSpec(style: map<string, string>, entries: seq<(string, string)>)
    requires DistinctNames(entries)
    ensures forall k :: 0 <= k < |entries| ==>
              entries[k].0 in SetAll(style, entries) && SetAll(style, entries)[entries[k].0] == entries[k].1
    ensures forall n :: (forall k :: 0 <= k < |entries| ==> entries[k].0 != n) ==>
              (n in SetAll(style, entries) <==> n in style)
              && (n in style ==> SetAll(style, entries)[n] == style[n])
  {
    if entries != [] {
      var init := entries[..|entries| - 1];
      SetAllSpec(style, init);
      forall k | 0 <= k < |init| ensures init[k] == entries[k] {
      }
    }
  }

  lemma VariableNamesDistinct(p: Palette)
    ensures DistinctNames(Entries(p))
  {
    var e := Entries(p);
    forall i, j | 0 <= i < j < |e| ensures e[i].0 != e[j].0 {
      assert e[i].0[2..4] != e[j].0[2..4] || |e[i].0| != |e[j].0|;
    }
  }

  /** The colour theme on start-up as written: the stored text as it is, or
      "pink" when nothing (or "") is stored. */
  function StoredColorTheme(storage: map<string, string>): string {
    if ColorThemeKey in storage && storage[ColorThemeKey] != "" then storage[ColorThemeKey] else "pink"
  }

  /** The palette lookup as written, on a theme name: none for a name that is
      not one of the six. */
  function LookupByName(name: string, dark: bool): Option<Palette> {
    match ParseColorTheme(name)
    case None => None
    case Some(t) => Some(PaletteOf(t, dark))
  }

  /** Any stored non-empty text that is not one of the six theme names
      reaches the lookup unchanged and finds no palette; "teal" is one. */
  lemma UnknownStoredThemeHasNoPalette(storage: map<string, string>, dark: bool)
    requires ColorThemeKey in storage && storage[ColorThemeKey] != ""
    requires ParseColorTheme(storage[ColorThemeKey]).None?
    ensures StoredColorTheme(storage) == storage[ColorThemeKey]
    ensures LookupByName(StoredColorTheme(storage), dark).None?
    ensures StoredColorTheme(map[ColorThemeKey := "teal"]) == "teal"
    ensures LookupByName(StoredColorTheme(map[ColorThemeKey := "teal"]), dark).None?
  {
  }

  /** The colour theme on start-up, keeping to the six themes: a stored theme
      name is used, anything else falls back to pink. */
  function InitialColorTheme(storage: map<string, string>): ColorTheme {
    if ColorThemeKey in storage && ParseColorTheme(storage[ColorThemeKey]).Some?
    then ParseColorTheme(storage[ColorThemeKey]).value
    else Pink
  }

  /** The corrected start-up theme always has a palette, agrees with the
      stored theme whenever that names one of the six, and is pink when
      nothing is stored. */
  lemma InitialColorThemeSpec(storage: map<string, string>, dark: bool)
    ensures LookupByName(ThemeName(InitialColorTheme(storage)), dark)
            == Some(PaletteOf(InitialColorTheme(storage), dark))
    ensures LookupByName(StoredColorTheme(storage), dark).Some? ==>
              ThemeName(InitialColorTheme(storage)) == StoredColorTheme(storage)
    ensures ColorThemeKey !in storage ==> InitialColorTheme(storage) == Pink
  {
    ThemeNameRoundTrip(InitialColorTheme(storage));
  }

  /** The appearance mode on start-up: the stored text, or "light". */
  function InitialAppearance(storage: map<string, string>): string {
    if AppearanceKey in storage && storage[AppearanceKey] != "" then storage[AppearanceKey] else "light"
  }

  /** The `isDark` effect: the media query decides for "system"; otherwise
      only "dark" is dark. */
  function IsDark(mode: string, systemDark: bool): bool {
    if mode == "system" then systemDark else mode == "dark"
  }

  lemma IsDarkSpec(systemDark: bool)
    ensures IsDark("dark", systemDark) && !IsDark("light", systemDark)
    ensures IsDark("system", systemDark) == systemDark
    ensures InitialAppearance(map[]) == "light" && !IsDark(InitialAppearance(map[]), systemDark)
  {
  }

  /** The document root: its inline style properties and whether it has the
      "dark" class. */
  class Root {
    var style: map<string, string>
    var darkClass: bool

    constructor ()
      ensures style == map[] && !darkClass
    {
      style := map[];
      darkClass := false;
    }
  }

  class ThemeProvider {
    var colorTheme: ColorTheme
    var appearanceMode: string
    var isDark: bool
    /** The browser's local storage. */
    var storage: map<string, string>

    constructor (storage: map<string, string>)
      ensures colorTheme == InitialColorTheme(storage) && appearanceMode == InitialAppearance(storage)
      ensures !isDark && this.storage == storage
    {
      colorTheme := InitialColorTheme(storage);
      appearanceMode := InitialAppearance(storage);
      isDark := false;
      this.storage := storage;
    }

    /** The effect run when the appearance mode changes. */
    method SyncIsDark(systemDark: bool)
      modifies this`isDark
      ensures isDark == IsDark(appearanceMode, systemDark)
    {
      if appearanceMode == "system" {
        isDark := systemDark;
      } else {
        isDark := appearanceMode == "dark";
      }
    }

    /** The media query's change listener: followed only in "system" mode. */
    method OnSystemChange(systemDark: bool)
      modifies this`isDark
      ensures appearanceMode == "system" ==> isDark == systemDark
      ensures appearanceMode != "system" ==> isDark == old(isDark)
    {
      if appearanceMode == "system" {
        isDark := systemDark;
      }
    }

    /** `setColorTheme`: the new theme is used and stored. */
    method SetColorTheme(t: ColorTheme)
      modifies this`colorTheme, this`storage
      ensures colorTheme == t && storage == old(storage)[ColorThemeKey := ThemeName(t)]
      ensures InitialColorTheme(storage) == t
    {
      colorTheme := t;
      storage := storage[ColorThemeKey := ThemeName(t)];
      ThemeNameRoundTrip(t);
    }

    /** `setAppearanceMode`: the new mode is used and stored. */
    method SetAppearanceMode(mode: string)
      requires mode == "light" || mode == "dark" || mode == "system"
      modifies this`appearanceMode, this`storage
      ensures appearanceMode == mode && storage == old(storage)[AppearanceKey := mode]
      ensures InitialAppearance(storage) == mode
    {
      appearanceMode := mode;
      storage := storage[AppearanceKey := mode];
    }

    /** The effect applying the palette: each of its five variables is set on
        the root in turn, then the "dark" class follows `isDark`. */
    method ApplyTheme(root: Root)
      modifies root
      ensures root.style == SetAll(old(root.style), Entries(PaletteOf(colorTheme, isDark)))
      ensures root.darkClass == isDark
    {
      var entries := Entries(PaletteOf(colorTheme, isDark));
      var i := 0;
      while i < |entries|
        invariant 0 <= i <= |entries|
        invariant root.style == SetAll(old(root.style), entries[..i])
      {
        assert entries[..i + 1][..i] == entries[..i];
        root.style := root.style[entries[i].0 := entries[i].1];
        i := i + 1;
      }
      assert entries[..i] == entries;
      if isDark {
        root.darkClass := true;
      } else {
        root.darkClass := false;
      }
    }
  }

  /** After the effect, the root holds every variable of the chosen palette
      and keeps its other properties. */
  lemma AppliedPaletteIsComplete(style: map<string, string>, t: ColorTheme, dark: bool)
    ensures var s := SetAll(style, Entries(PaletteOf(t, dark)));
            var e := Entries(PaletteOf(t, dark));
            && (forall k :: 0 <= k < |VariableNames| ==> VariableNames[k] in s && s[VariableNames[k]] == e[k].1)
            && (forall n :: n !in VariableNames ==> (n in s <==> n in style) && (n in style ==> s[n] == style[n]))
  {
    var e := Entries(PaletteOf(t, dark));
    VariableNamesDistinct(PaletteOf(t, dark));
    SetAllSpec(style, e);
  }
}
