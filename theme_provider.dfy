/** The light/dark/system theme state of `ThemeProvider` and `ThemeToggle`.
    The React state, `localStorage`, the document element's class list and
    attributes, the `meta[name="theme-color"]` element, the stylesheet's
    `--md-sys-color-surface` value for each `data-theme` value and the
    `prefers-color-scheme: dark` media query are fields of one object; each effect and handler is a
    method on it. */
module ThemeProvider {
  import opened Tokens
  import Text
  import Wrappers

  const DefaultTheme := "system"
  const DefaultStorageKey := "octocode-theme"
  const DarkMetaFallback := "#101014"
  const LightMetaFallback := "#fffbff"

  /** The mode `updateTheme` picks: the media query decides for `system`
      when system following is enabled; otherwise only `dark` is dark. */
  function ResolveTheme(theme: string, enableSystem: bool, prefersDark: bool): (m: Mode)
    ensures theme == "dark" ==> m == Dark
    ensures theme != "dark" && theme != "system" ==> m == Light
    ensures theme == "system" && !enableSystem ==> m == Light
  {
    if theme == "system" && enableSystem then (if prefersDark then Dark else Light)
    else if theme == "dark" then Dark
    else Light
  }

  /** The class list after `classList.remove('light', 'dark')` and
      `classList.add(actualTheme)`. */
  function UpdatedClasses(classes: set<string>, m: Mode): (r: set<string>)
    ensures ModeName(m) in r
    ensures ("light" in r) != ("dark" in r)
    ensures forall c :: c != "light" && c != "dark" ==> (c in r <==> c in classes)
  {
    classes - {"light", "dark"} + {ModeName(m)}
  }

  /** The `content` the meta tag receives: the trimmed surface colour, or
      a fixed colour per mode when that is empty. */
  function MetaThemeColor(m: Mode, surface: string): (color: string)
    ensures color != ""
    ensures Text.Trim(surface) != "" ==> color == Text.Trim(surface)
    ensures Text.Trim(surface) == "" && m == Dark ==> color == "#101014"
    ensures Text.Trim(surface) == "" && m == Light ==> color == "#fffbff"
  {
    var value := Text.Trim(surface);
    if value != "" then value
    else if m == Dark then DarkMetaFallback
    else LightMetaFallback
  }

  /** The theme `toggleTheme` asks for. */
  function ToggleTarget(theme: string, resolved: Mode): (next: string)
    ensures next == "light" || next == "dark"
    ensures theme == "light" ==> next == "dark"
    ensures theme != "light" && theme != "system" ==> next == "light"
    ensures theme == "system" ==> (next == "dark" <==> resolved.Light?)
  {
    if theme == "system" then (if resolved.Dark? then "light" else "dark")
    else if theme == "light" then "dark"
    else "light"
  }

  class Provider {
    var theme: string
    var resolvedTheme: Mode
    const storageKey: string
    const enableSystem: bool
    /** `localStorage`. */
    var storage: map<string, string>
    /** `document.documentElement.classList`. */
    var rootClasses: set<string>
    /** The document element's attributes. */
    var rootAttributes: map<string, string>
    /** Whether the page has a `meta[name="theme-color"]` element, and its
        `content`. */
    const hasMetaThemeColor: bool
    var metaThemeColor: string
    /** The stylesheet: `getComputedStyle(root).getPropertyValue('--md-sys-color-surface')`
        as it comes out for each value of the root's `data-theme` attribute
        (`None` when the attribute is absent). */
    const surfaceStyle: Wrappers.Option<string> -> string
    /** `mediaQuery.matches`. */
    var prefersDark: bool
    /** Whether `updateTheme` is registered as the media query's `change`
        listener. */
    var listening: bool

    /** The first render: `theme` is `defaultTheme`, `resolvedTheme` is
        `light`, no effect has run yet. */
    constructor (storage: map<string, string>, rootClasses: set<string>, rootAttributes: map<string, string>,
                 hasMetaThemeColor: bool, metaThemeColor: string, surfaceStyle: Wrappers.Option<string> -> string, prefersDark: bool,
                 defaultTheme: string := DefaultTheme, storageKey: string := DefaultStorageKey,
                 enableSystem: bool := true)
      ensures theme == defaultTheme && resolvedTheme == Light
      ensures this.storageKey == storageKey && this.enableSystem == enableSystem
      ensures this.storage == storage && this.rootClasses == rootClasses && this.rootAttributes == rootAttributes
      ensures this.hasMetaThemeColor == hasMetaThemeColor && this.metaThemeColor == metaThemeColor
      ensures this.surfaceStyle == surfaceStyle && this.prefersDark == prefersDark
      ensures !listening
    {
      theme := defaultTheme;
      resolvedTheme := Light;
      this.storageKey := storageKey;
      this.enableSystem := enableSystem;
      this.storage := storage;
      this.rootClasses := rootClasses;
      this.rootAttributes := rootAttributes;
      this.hasMetaThemeColor := hasMetaThemeColor;
      this.metaThemeColor := metaThemeColor;
      this.surfaceStyle := surfaceStyle;
      this.prefersDark := prefersDark;
      listening := false;
    }

    /** The resolved mode and the document agree with the current theme. */
    predicate Applied()
      reads this
    {
      && resolvedTheme == ResolveTheme(theme, enableSystem, prefersDark)
      && "data-theme" in rootAttributes && rootAttributes["data-theme"] == ModeName(resolvedTheme)
      && ModeName(resolvedTheme) in rootClasses
      && ("light" in rootClasses) != ("dark" in rootClasses)
    }

    /** The computed surface colour of the document as it stands. */
    function ComputedSurface(): string
      reads this
    {
      surfaceStyle(if "data-theme" in rootAttributes then Wrappers.Some(rootAttributes["data-theme"]) else Wrappers.None)
    }

    /** The computed surface colour once `data-theme` names the mode. */
    function ModeSurface(m: Mode): string
    {
      surfaceStyle(Wrappers.Some(ModeName(m)))
    }

    /** The mount effect: a stored, non-empty theme replaces the current one. */
    method RestoreSavedTheme()
      modifies this
      ensures storageKey in storage && storage[storageKey] != "" ==> theme == storage[storageKey]
      ensures !(storageKey in storage && storage[storageKey] != "") ==> theme == old(theme)
      ensures resolvedTheme == old(resolvedTheme) && storage == old(storage) && listening == old(listening)
      ensures rootClasses == old(rootClasses) && rootAttributes == old(rootAttributes)
      ensures metaThemeColor == old(metaThemeColor)
      ensures prefersDark == old(prefersDark)
    {
      if storageKey in storage {
        var savedTheme := storage[storageKey];
        if savedTheme != "" {
          theme := savedTheme;
        }
      }
    }

    /** Lines 55-62 of `updateTheme`: classes and `data-theme` of the root
        element. */
    method UpdateRootElement(actualTheme: Mode)
      modifies this
      ensures rootClasses == UpdatedClasses(old(rootClasses), actualTheme)
      ensures rootAttributes == old(rootAttributes)["data-theme" := ModeName(actualTheme)]
      ensures resolvedTheme == old(resolvedTheme) && metaThemeColor == old(metaThemeColor)
      ensures theme == old(theme) && storage == old(storage) && listening == old(listening)
      ensures prefersDark == old(prefersDark)
    {
      rootClasses := rootClasses - {"light", "dark"};
      rootAttributes := rootAttributes["data-theme" := ModeName(actualTheme)];
      rootClasses := rootClasses + {ModeName(actualTheme)};
    }

    /** Lines 64-71 of `updateTheme`: the meta colour, when the page has the
        tag, from the surface colour computed for the document as it now is. */
    method UpdateMetaThemeColor(actualTheme: Mode)
      modifies this
      ensures hasMetaThemeColor ==> metaThemeColor == MetaThemeColor(actualTheme, old(ComputedSurface()))
      ensures !hasMetaThemeColor ==> metaThemeColor == old(metaThemeColor)
      ensures resolvedTheme == old(resolvedTheme) && rootClasses == old(rootClasses) && rootAttributes == old(rootAttributes)
      ensures theme == old(theme) && storage == old(storage) && listening == old(listening)
      ensures prefersDark == old(prefersDark)
    {
      if hasMetaThemeColor {
        var surface := ComputedSurface();
        metaThemeColor := MetaThemeColor(actualTheme, surface);
      }
    }

    /** `updateTheme`. */
    method UpdateTheme()
      modifies this
      ensures resolvedTheme == ResolveTheme(theme, enableSystem, prefersDark)
      ensures rootClasses == UpdatedClasses(old(rootClasses), resolvedTheme)
      ensures rootAttributes == old(rootAttributes)["data-theme" := ModeName(resolvedTheme)]
      ensures hasMetaThemeColor ==> metaThemeColor == MetaThemeColor(resolvedTheme, ModeSurface(resolvedTheme))
      ensures !hasMetaThemeColor ==> metaThemeColor == old(metaThemeColor)
      ensures Applied()
      ensures theme == old(theme) && storage == old(storage) && listening == old(listening)
      ensures prefersDark == old(prefersDark)
    {
      var actualTheme: Mode;
      if theme == "system" && enableSystem {
        actualTheme := if prefersDark then Dark else Light;
      } else {
        actualTheme := if theme == "dark" then Dark else Light;
      }
      resolvedTheme := actualTheme;
      UpdateRootElement(actualTheme);
      UpdateMetaThemeColor(actualTheme);
    }

    /** The effect on `[theme, enableSystem]`: the previous listener is
        removed, the document is updated, and a new listener is added only
        when system following is enabled. */
    method ThemeEffect()
      modifies this
      ensures resolvedTheme == ResolveTheme(theme, enableSystem, prefersDark)
      ensures rootClasses == UpdatedClasses(old(rootClasses), resolvedTheme)
      ensures rootAttributes == old(rootAttributes)["data-theme" := ModeName(resolvedTheme)]
      ensures hasMetaThemeColor ==> metaThemeColor == MetaThemeColor(resolvedTheme, ModeSurface(resolvedTheme))
      ensures !hasMetaThemeColor ==> metaThemeColor == old(metaThemeColor)
      ensures Applied()
      ensures listening == enableSystem
      ensures theme == old(theme) && storage == old(storage) && prefersDark == old(prefersDark)
    {
      listening := false;
      UpdateTheme();
      if enableSystem {
        listening := true;
      }
    }

    /** The media query's `change` event. */
    method SystemSchemeChanged(matches: bool)
      modifies this
      ensures prefersDark == matches && theme == old(theme) && storage == old(storage) && listening == old(listening)
      ensures listening ==> resolvedTheme == ResolveTheme(theme, enableSystem, matches)
      ensures listening ==> rootClasses == UpdatedClasses(old(rootClasses), resolvedTheme)
      ensures listening ==> rootAttributes == old(rootAttributes)["data-theme" := ModeName(resolvedTheme)]
      ensures listening && hasMetaThemeColor ==> metaThemeColor == MetaThemeColor(resolvedTheme, ModeSurface(resolvedTheme))
      ensures !hasMetaThemeColor ==> metaThemeColor == old(metaThemeColor)
      ensures listening ==> Applied()
      ensures !listening ==> resolvedTheme == old(resolvedTheme) && rootClasses == old(rootClasses)
                             && rootAttributes == old(rootAttributes) && metaThemeColor == old(metaThemeColor)
    {
      prefersDark := matches;
      if listening {
        UpdateTheme();
      }
    }

    /** `handleSetTheme`: the state and `localStorage` get the same value. */
    method SetTheme(newTheme: string)
      modifies this
      ensures theme == newTheme && storage == old(storage)[storageKey := newTheme]
      ensures resolvedTheme == old(resolvedTheme) && listening == old(listening)
      ensures rootClasses == old(rootClasses) && rootAttributes == old(rootAttributes)
      ensures metaThemeColor == old(metaThemeColor) && prefersDark == old(prefersDark)
    {
      theme := newTheme;
      storage := storage[storageKey := newTheme];
    }

    /** `toggleTheme` of `ThemeToggle`. */
    method ToggleTheme()
      modifies this
      ensures theme == ToggleTarget(old(theme), old(resolvedTheme))
      ensures storage == old(storage)[storageKey := theme]
      ensures resolvedTheme == old(resolvedTheme) && listening == old(listening)
      ensures rootClasses == old(rootClasses) && rootAttributes == old(rootAttributes)
      ensures metaThemeColor == old(metaThemeColor) && prefersDark == old(prefersDark)
    {
      if theme == "system" {
        SetTheme(if resolvedTheme.Dark? then "light" else "dark");
      } else if theme == "light" {
        SetTheme("dark");
      } else {
        SetTheme("light");
      }
    }

    /** A toggle followed by the effect it triggers flips the resolved mode
        for the three declared themes. */
    method ToggleAndApply()
      requires Applied()
      requires theme == "light" || theme == "dark" || theme == "system"
      modifies this
      ensures theme == ToggleTarget(old(theme), old(resolvedTheme)) && theme != "system"
      ensures storage == old(storage)[storageKey := theme]
      ensures resolvedTheme == ResolveTheme(theme, enableSystem, prefersDark)
      ensures resolvedTheme != old(resolvedTheme)
      ensures rootClasses == UpdatedClasses(old(rootClasses), resolvedTheme)
      ensures rootAttributes == old(rootAttributes)["data-theme" := ModeName(resolvedTheme)]
      ensures hasMetaThemeColor ==> metaThemeColor == MetaThemeColor(resolvedTheme, ModeSurface(resolvedTheme))
      ensures !hasMetaThemeColor ==> metaThemeColor == old(metaThemeColor)
      ensures Applied() && listening == enableSystem
      ensures prefersDark == old(prefersDark)
    {
      ToggleTheme();
      ThemeEffect();
      ToggleFlipsResolvedMode(old(theme), enableSystem, prefersDark);
    }
  }

  /** The media query matters exactly when the theme is `system` and
      system following is enabled. */
  lemma MediaQueryDecidesOnlyForSystem(theme: string, enableSystem: bool)
    ensures ResolveTheme(theme, enableSystem, true) != ResolveTheme(theme, enableSystem, false)
            <==> theme == "system" && enableSystem
  {
  }

  /** The resolved mode is the media query's answer exactly for `system`
      with system following enabled. */
  lemma SystemFollowsMediaQuery(theme: string, enableSystem: bool, prefersDark: bool)
    requires theme == "system" && enableSystem
    ensures ResolveTheme(theme, enableSystem, prefersDark) == (if prefersDark then Dark else Light)
  {
  }

  /** Outside system following, only `dark` resolves to dark. */
  lemma ResolvedWithoutMediaQuery(theme: string, enableSystem: bool, prefersDark: bool)
    requires !(theme == "system" && enableSystem)
    ensures ResolveTheme(theme, enableSystem, prefersDark) == Dark <==> theme == "dark"
  {
  }

  /** The fallbacks are the surface colours of the static tables. */
  lemma MetaFallbackIsTableSurface(m: Mode)
    ensures MetaThemeColor(m, "") == Md3Colors(m)[Surface]
  {
    TableEntries(Surface);
  }

  /** When the stylesheet gives a mode the table's surface colour, the meta
      tag receives exactly that colour. */
  lemma StylesheetSurfaceIsMetaColor(m: Mode, surface: string)
    requires surface == Md3Colors(m)[Surface]
    ensures MetaThemeColor(m, surface) == Md3Colors(m)[Surface]
  {
    TablesCanonical(Surface);
    var s := Md3Colors(m)[Surface];
    assert s[1..][5] == s[6];
    Text.TrimKeepsUnpadded(s);
  }

  /** A computed surface value made only of white space (U+00A0 or U+3000
      included, as `trim` counts them) gives the fallback colour. */
  lemma BlankSurfaceFallsBack(m: Mode, surface: string)
    requires forall k :: 0 <= k < |surface| ==> Text.IsSpace(surface[k])
    ensures MetaThemeColor(m, surface) == Md3Colors(m)[Surface]
  {
    Text.TrimDropsOnlySpace(surface);
    MetaFallbackIsTableSurface(m);
  }

  /** A toggle never asks for `system`. */
  lemma ToggleNeverSystem(theme: string, resolved: Mode)
    ensures ToggleTarget(theme, resolved) != "system"
  {
  }

  /** For the three declared themes, toggling from a consistent state flips
      the resolved mode. */
  lemma ToggleFlipsResolvedMode(theme: string, enableSystem: bool, prefersDark: bool)
    requires theme == "light" || theme == "dark" || theme == "system"
    ensures var resolved := ResolveTheme(theme, enableSystem, prefersDark);
            ResolveTheme(ToggleTarget(theme, resolved), enableSystem, prefersDark) != resolved
  {
  }

  /** A stored string outside the three themes resolves to light and
      toggles to light, so the first toggle leaves the mode unchanged. */
  lemma UnrecognisedThemeTogglesToLight(theme: string, enableSystem: bool, prefersDark: bool)
    requires theme != "light" && theme != "dark" && theme != "system"
    ensures ResolveTheme(theme, enableSystem, prefersDark) == Light
    ensures ToggleTarget(theme, ResolveTheme(theme, enableSystem, prefersDark)) == "light"
    ensures ResolveTheme(ToggleTarget(theme, Light), enableSystem, prefersDark) == Light
  {
  }
}
