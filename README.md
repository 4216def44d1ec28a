# Octocode theming, modelled in Dafny

This project models the theming core of the Octocode web application. It proves properties of that model. It covers five parts:

- **`Tokens`** (`tokens.dfy`): the 37 Material Design 3 colour roles and the constant `lightColors` and `darkColors` tables. `md3Tokens.colors` is `Md3Colors`.
- **`ThemeUtils`** (`theme_utils.dfy`): the helpers of `lib/utils/theme-utils.ts`. These are:
  - camelCase/kebab-case rewriting;
  - hex colour validation, parsing and printing;
  - the WCAG 2.1 luminance contrast ratio and its AA/AAA thresholds;
  - the component class-list builder;
  - the CSS-variable name builders;
  - `getCurrentColors`.
- **`DynamicColors`** (`dynamic_colors.dfy`): `lib/theme/dynamic-colors.ts`. These are:
  - the tone-based contrast ratio and the `ensureContrast` tone search;
  - `extractSchemeColors`;
  - the custom-colour record built by `generateDynamicTheme`;
  - `applyDynamicTheme`, writing into a style declaration's property map.
- **`ThemeProvider`** (`theme_provider.dfy`): the theme state of `ThemeProvider` and `ThemeToggle` in `lib/theme/theme-provider.tsx`. It is one object whose fields are:
  - the React state;
  - `localStorage`;
  - the root element's class set and attribute map;
  - the meta `theme-color` element;
  - the stylesheet's `--md-sys-color-surface` value for each `data-theme` value, which `getComputedStyle` reads;
  - the `prefers-color-scheme: dark` media query.
- **Support modules.** `Records` (`records.dfy`) is a JavaScript object as an ordered list of entries. Writing an existing key keeps its position. `Text` (`text.dfy`) holds the string primitives the code uses: ASCII case mapping, first-occurrence `replace`, `includes`, `trim`, number printing. `Wrappers` holds `Option`.

**The colour library.** The colour science of `@material/material-color-utilities` is a parameter of type `ColorLibrary`. Its fields are functions for `argbFromHex`, `Hct.fromInt`, `Hct.from(...).toInt()` and `themeFromSourceColor`. The only assumptions about them are range assumptions in their types: a tone lies in [0, 100], and an ARGB value lies below 2^32. Likewise, `getLuminance`'s `Math.pow` transfer curve is a parameter. It is assumed only to map [0, 1] into [0, 1].

**Numbers.** JavaScript numbers are exact reals or unbounded integers.

**Imperative code.** The source's imperative routines are methods, each proved against a function that specifies it:
- `ensureContrast`'s `while` loop;
- the `push` sequence of `createComponentClasses`;
- the `forEach` that fills the custom-colour record;
- the nested `forEach` loops of `applyDynamicTheme`;
- the provider's effects and handlers.

The properties are then proved about those functions.

## Model

| member | source | states |
|---|---|---|
| Tokens.RoleIndex | lib/types/theme.ts:68-121 | every colour role has a position in the role list, and the list holds that role there |
| Tokens.AllRolesListsEveryRole | lib/types/theme.ts:68-121 | the role list has exactly 37 entries and contains every role |
| Tokens.RoleNameInjective | lib/types/theme.ts:68-121 | distinct roles have distinct record keys, so a colour record has 37 distinct keys |
| Tokens.TableEntries | lib/theme/tokens.ts:268-361 | both constant tables hold an entry for each role, with the value written in the table |
| Tokens.TablesComplete | lib/theme/tokens.ts:268-361 | `lightColors` and `darkColors` each have all 37 role keys |
| Tokens.TablesCanonical | lib/theme/tokens.ts:268-361 | every value in both tables is `#` followed by six lower-case hex digits |
| Tokens.ShadowAndScrimBlack | lib/theme/tokens.ts:310-311 | shadow and scrim are `#000000` in both modes |
| Tokens.SurfaceTintIsPrimary | lib/theme/tokens.ts:312 | surfaceTint equals primary in the light table, and likewise in the dark table (lines 269, 317, 360) |
| Tokens.InversePrimaryIsOtherPrimary | lib/theme/tokens.ts:309 | light inversePrimary is dark primary and dark inversePrimary (line 357) is light primary |
| Tokens.BackgroundIsSurface | lib/theme/tokens.ts:289-292 | background equals surface and onBackground equals onSurface in both modes (dark: lines 337-340) |
| Records.Keys | lib/theme/dynamic-colors.ts:170-172 | the keys of a record, one per entry, in entry order |
| Records.Get | lib/theme/dynamic-colors.ts:170 | a key reads a value exactly when it is one of the record's keys |
| Records.Put | lib/theme/dynamic-colors.ts:77 | assigning an existing key keeps the key list; assigning a new key appends it at the end |
| Records.GetPut | lib/theme/dynamic-colors.ts:77 | after an assignment, the key reads the new value and every other key reads what it read before |
| Records.PutKeepsKeysUnique | lib/theme/dynamic-colors.ts:77 | assignment never introduces a duplicate key |
| Records.PutKeepsValuesSatisfying | lib/theme/dynamic-colors.ts:77 | assignment preserves any property that every value, the new one included, satisfies |
| Text.Lower | lib/utils/theme-utils.ts:138 | `toLowerCase` keeps the length and lower-cases each character in place |
| Text.ReplaceFirst | lib/utils/theme-utils.ts:83 | `replace` with a one-character pattern changes only its first occurrence |
| Text.Trim | lib/theme/theme-provider.tsx:67-68 | no white space is left at either end of the result, and it is no longer than the input |
| Text.TrimDropsOnlySpace | lib/theme/theme-provider.tsx:67-68 | `trim` keeps a slice of its input and cuts off nothing but white space on either side (the ECMAScript white-space and line-terminator characters, U+00A0 and U+FEFF included) |
| ThemeUtils.CamelToKebab | lib/utils/theme-utils.ts:137-139 | the kebab form contains no upper-case letter |
| ThemeUtils.KebabToCamel | lib/utils/theme-utils.ts:144-146 | `kebabToCamel`, which turns each `-` plus lower-case letter into the upper-case letter; what it means is stated by the two lemmas below |
| ThemeUtils.KebabToCamelWithoutHyphens | lib/utils/theme-utils.ts:144-146 | a string without hyphens comes back unchanged |
| ThemeUtils.CamelToKebabHyphenates | lib/utils/theme-utils.ts:137-139 | `camelToKebab` equals a character-by-character reference: one hyphen before each upper-case letter that follows a lower-case letter or digit, and every character lower-cased |
| ThemeUtils.CamelToKebabKeepsLowerCase | lib/utils/theme-utils.ts:137-139 | a string without upper-case letters is its own kebab form |
| ThemeUtils.KebabToCamelInvertsCamelToKebab | lib/utils/theme-utils.ts:137-146 | `kebabToCamel(camelToKebab(s)) == s` for every hyphen-free camel name whose upper-case letters each follow a lower-case letter or digit |
| ThemeUtils.CamelToKebabInjective | lib/utils/theme-utils.ts:137-146 | distinct camel names have distinct kebab forms |
| ThemeUtils.RoleNameIsCamel | lib/types/theme.ts:68-121 | every colour-role key is such a camel name |
| ThemeUtils.RoleCssNamesDistinct | lib/utils/theme-utils.ts:61-63 | distinct roles get distinct kebab-case CSS names |
| ThemeUtils.IsValidHexColor | lib/utils/theme-utils.ts:233-235 | the regular-expression test; which valid colours `hexToRgb` parses is stated by the two lemmas below |
| ThemeUtils.HexToRgb | lib/utils/theme-utils.ts:240-247 | parsing succeeds exactly for six hex digits of either case after an optional `#`, and then yields channels in 0..255 |
| ThemeUtils.ValidHexColorParses | lib/utils/theme-utils.ts:233-247 | a colour that passes `isValidHexColor` is parsed exactly when it has the six-digit form |
| ThemeUtils.ShortHexNotParsed | lib/utils/theme-utils.ts:233-247 | the three-digit form passes validation but `hexToRgb` rejects it |
| ThemeUtils.RgbToHex | lib/utils/theme-utils.ts:252-254 | for byte channels, the result is `#` plus six lower-case hex digits, two per channel |
| ThemeUtils.HexToRgbInvertsRgbToHex | lib/utils/theme-utils.ts:240-254 | `hexToRgb(rgbToHex(r, g, b))` gives `(r, g, b)` back for all byte channels |
| ThemeUtils.RgbToHexInvertsHexToRgb | lib/utils/theme-utils.ts:240-254 | printing a parsed colour gives `#` plus its six digits lower-cased |
| ThemeUtils.CanonicalHexRoundTrip | lib/utils/theme-utils.ts:240-254 | a `#` plus six lower-case digits parses and prints back unchanged |
| ThemeUtils.TableColoursParse | lib/theme/tokens.ts:268-361 | every colour of both static tables parses with `hexToRgb` and prints back unchanged |
| ThemeUtils.Luminance | lib/utils/theme-utils.ts:259-270 | the relative luminance lies in [0, 1], and is 0 for a string `hexToRgb` rejects |
| ThemeUtils.ContrastRatio | lib/utils/theme-utils.ts:275-282 | the luminance ratio lies in [1, 21] and is 1 exactly when the two luminances agree |
| ThemeUtils.ContrastRatioSymmetric | lib/utils/theme-utils.ts:275-282 | the ratio does not depend on the order of the two colours |
| ThemeUtils.ContrastRatioOfUnparsed | lib/utils/theme-utils.ts:259-282 | an unparseable colour counts as luminance 0; when both are unparseable the ratio is exactly 1 |
| ThemeUtils.MeetsContrastRequirement | lib/utils/theme-utils.ts:287-300 | the verdict holds exactly when the ratio reaches 4.5 (AA), 3 (AA large), 7 (AAA) or 4.5 (AAA large) |
| ThemeUtils.StrictestRequirement | lib/utils/theme-utils.ts:287-300 | passing AAA for normal text implies passing every level and size; the defaults are AA and normal text |
| ThemeUtils.UnparsedColoursFail | lib/utils/theme-utils.ts:259-300 | two unparseable colours fail every requirement |
| ThemeUtils.Cn | lib/utils/theme-utils.ts:22-24 | the joined class string is empty exactly when every class is empty |
| ThemeUtils.WordsOfCn | lib/utils/theme-utils.ts:22-24 | splitting the joined class string at spaces gives back exactly the non-empty classes |
| ThemeUtils.ComponentClassList | lib/utils/theme-utils.ts:151-190 | the list starts with the base class and ends with the custom class when one is given; the full order is stated by ComponentClassesInOrder |
| ThemeUtils.CreateComponentClasses | lib/utils/theme-utils.ts:151-190 | the pushes build exactly the class list below, joined by `cn` |
| ThemeUtils.ComponentClassesInOrder | lib/utils/theme-utils.ts:151-190 | the class attribute lists, in order: the base class; one `base--<kebabToCamel(key)>` per truthy variant in entry order; a size class only for a size other than medium; `--disabled` exactly when disabled; `--loading` exactly when loading; the custom class last |
| ThemeUtils.GetColorToken | lib/utils/theme-utils.ts:61-63 | the `var(--md-sys-color-…)` reference of the role's kebab-case name; distinctness is stated by GetColorTokenInjective |
| ThemeUtils.GetColorTokenInjective | lib/utils/theme-utils.ts:61-63 | distinct colour roles give distinct `var(--md-sys-color-…)` references |
| ThemeUtils.GetSpacing | lib/utils/theme-utils.ts:68-70 | the `var(--md-sys-spacing-…)` reference of the token; distinctness is stated by GetSpacingInjective |
| ThemeUtils.GetSpacingInjective | lib/utils/theme-utils.ts:68-70 | distinct spacing tokens give distinct references |
| ThemeUtils.GetElevation | lib/utils/theme-utils.ts:75-77 | the `var(--md-sys-elevation-level…)` reference of the level; its digit is stated by GetElevationDigit |
| ThemeUtils.GetElevationDigit | lib/utils/theme-utils.ts:75-77 | the elevation reference ends in the level's digit, so distinct levels give distinct references |
| ThemeUtils.GetShape | lib/utils/theme-utils.ts:82-84 | the `var(--md-sys-shape-corner-…)` reference after the first-underscore rewrite; GetShapeUsesTokenName states the result |
| ThemeUtils.GetShapeUsesTokenName | lib/utils/theme-utils.ts:82-84 | replacing the first `_` changes no declared shape token; the reference embeds the token's own name |
| ThemeUtils.GetTypography | lib/utils/theme-utils.ts:89-98 | the five typescale references of a scale; their shared key is stated by TypographyKey |
| ThemeUtils.TypographyKey | lib/utils/theme-utils.ts:89-98 | only the first `-` of the scale becomes `_` (such as `display_large`), and the five property references share that key |
| ThemeUtils.GetMotionDuration | lib/utils/theme-utils.ts:103-105 | the `var(--md-sys-motion-duration-…)` reference after the first-underscore rewrite; DeclaredDuration states it for every declared token |
| ThemeUtils.GetMotionEasing | lib/utils/theme-utils.ts:110-112 | the `var(--md-sys-motion-easing-…)` reference after the first-underscore rewrite; DeclaredEasing states it for every declared token |
| ThemeUtils.DeclaredDuration | lib/utils/theme-utils.ts:103-105 | every declared duration token becomes its `var(--md-sys-motion-duration-…)` reference unchanged |
| ThemeUtils.DeclaredEasing | lib/utils/theme-utils.ts:110-112 | every declared easing token becomes its `var(--md-sys-motion-easing-…)` reference unchanged |
| ThemeUtils.CreateAnimation | lib/utils/theme-utils.ts:117-132 | the `animation` shorthand with its defaults; AnimationOfTokens and AnimationOfLiterals state both branches |
| ThemeUtils.AnimationOfTokens | lib/utils/theme-utils.ts:117-132 | with declared tokens, the animation uses the `var(...)` form for both duration and easing |
| ThemeUtils.AnimationOfLiterals | lib/utils/theme-utils.ts:117-132 | a duration containing `ms` and an easing containing `cubic-bezier` pass through verbatim |
| ThemeUtils.CurrentTheme | lib/utils/theme-utils.ts:45-48 | never empty; a non-empty `data-theme` attribute is returned as it is, and an absent or empty one reads `light` |
| ThemeUtils.GetCurrentColors | lib/utils/theme-utils.ts:45-56 | the result exists exactly for a current theme of light or dark, and is always one of the two constant tables |
| ThemeUtils.CurrentColorsOfMode | lib/utils/theme-utils.ts:45-56 | each mode name selects its own table, and a missing or empty `data-theme` selects the light table |
| DynamicColors.ToneRatio | lib/theme/dynamic-colors.ts:217-223 | `(lighter + 5) / (darker + 5)` of two tones lies in [1, 21] and is 1 exactly for equal tones |
| DynamicColors.ToneContrastRatio | lib/theme/dynamic-colors.ts:209-227 | the tone ratio lies in [1, 21]; it is 1 whenever either colour fails to parse; for parsed colours it is 1 exactly when the tones agree |
| DynamicColors.ToneContrastRatioSymmetric | lib/theme/dynamic-colors.ts:209-227 | the tone ratio does not depend on the order of the colours |
| DynamicColors.HctOfHex | lib/theme/dynamic-colors.ts:244-247 | `Hct.fromInt(argbFromHex(hex))`, absent where `argbFromHex` throws; what the contrast code does with it is stated by the lemmas below |
| DynamicColors.HexOfArgb | lib/theme/dynamic-colors.ts:257 | `#` plus `toString(16).padStart(8, '0').substring(2)` of an ARGB value is `#` plus six lower-case hex digits |
| DynamicColors.PaddedHexString | lib/theme/dynamic-colors.ts:257 | `toString(16).padStart(k, '0')` of a number below 16^k is its k lowest hex digits |
| DynamicColors.HexOfArgbChannels | lib/theme/dynamic-colors.ts:257 | dropping the two alpha digits leaves `rgbToHex` of the low 24 bits: red, green and blue |
| DynamicColors.HexOfArgbParses | lib/theme/dynamic-colors.ts:257 | `hexToRgb` of the printed colour gives exactly the ARGB value's red, green and blue channels |
| DynamicColors.Fallback | lib/theme/dynamic-colors.ts:269 | the fallback is `#000000` exactly when the background tone is above 50, and `#ffffff` otherwise |
| DynamicColors.AtMostOneHundredOneTries | lib/theme/dynamic-colors.ts:250-266 | a tried tone stays in [0, 100] for at most 101 steps |
| DynamicColors.SearchStopsAfterOneHundredOneTries | lib/theme/dynamic-colors.ts:253-269 | from step 101 on the search has left [0, 100] and returns the black-or-white fallback |
| DynamicColors.Candidate | lib/theme/dynamic-colors.ts:254-257 | each tried colour is printed as `#` plus six lower-case hex digits |
| DynamicColors.CandidateChannels | lib/theme/dynamic-colors.ts:254-257 | the printed candidate parses back to the red, green and blue channels of the colour `Hct.from(hue, chroma, tone).toInt()` produced |
| DynamicColors.Search | lib/theme/dynamic-colors.ts:253-269 | the loop from any step on returns a `#` plus six-digit colour: a passing candidate or the fallback |
| DynamicColors.EnsureContrast | lib/theme/dynamic-colors.ts:232-276 | the loop returns exactly the specified outcome: early return, first passing candidate, fallback, or the exception |
| DynamicColors.EnsureContrastResult | lib/theme/dynamic-colors.ts:237-241 | a foreground that already meets the target is returned unchanged; an exception escapes exactly when the background fails to parse and the target exceeds 1; any other change yields a canonical hex colour |
| DynamicColors.SearchMeetsTargetOrFallsBack | lib/theme/dynamic-colors.ts:253-269 | the search returns either the fallback or a colour that meets the target against the background |
| DynamicColors.SearchFindsFirst | lib/theme/dynamic-colors.ts:253-263 | the search returns the candidate at the first tried tone that meets the target, when all earlier tones were in range and failed |
| DynamicColors.SearchExhausted | lib/theme/dynamic-colors.ts:253-269 | when no tried tone in range meets the target, the search returns black or white by background tone |
| DynamicColors.EnsureContrastMeetsTarget | lib/theme/dynamic-colors.ts:232-276 | a returned colour other than black or white meets the target ratio |
| DynamicColors.EnsureContrastIdempotent | lib/theme/dynamic-colors.ts:237-241 | applying `ensureContrast` to its own result (other than black or white) returns that result again |
| DynamicColors.UnparsedForegroundFallsBack | lib/theme/dynamic-colors.ts:270-275 | an unparseable foreground against a parseable background and a target above 1 takes the `catch` fallback |
| DynamicColors.OrElse | lib/theme/dynamic-colors.ts:135 | `scheme.x?.toHex() \|\| fallback`: the fallback when the field is missing, the field when it is non-empty |
| DynamicColors.ExtractSchemeColors | lib/theme/dynamic-colors.ts:105-154 | the extraction exists exactly when the scheme has all required fields, and then has all 37 `ColorTokens` keys |
| DynamicColors.ExtractedRequiredRole | lib/theme/dynamic-colors.ts:107-133 | each required role is copied from the scheme |
| DynamicColors.ExtractedSurfaceLevel | lib/theme/dynamic-colors.ts:135-141 | each of the seven surface levels falls back to surface |
| DynamicColors.ExtractedShadowScrimTint | lib/theme/dynamic-colors.ts:150-152 | shadow and scrim fall back to `#000000`; surfaceTint is always primary |
| DynamicColors.ExtractedFallbacksMatchTables | lib/theme/dynamic-colors.ts:150-152 | with shadow and scrim absent, the fallbacks agree with the static table of the mode whose primary the scheme shares |
| DynamicColors.LibCustomColors | lib/theme/dynamic-colors.ts:55-59 | each custom colour passes its name and parsed value, and `blend` defaults to true |
| DynamicColors.ColorName | lib/theme/dynamic-colors.ts:76 | the entry's name, or `custom<index>` when the name is empty or the entry is missing; never empty |
| DynamicColors.CustomColorRecord | lib/theme/dynamic-colors.ts:75-91 | the record after the `forEach` has visited the groups; its keys, uniqueness and values are stated by the lemmas below |
| DynamicColors.GroupRecord | lib/theme/dynamic-colors.ts:78-89 | each mode's record has exactly four entries |
| DynamicColors.GroupRecordWellFormed | lib/theme/dynamic-colors.ts:78-89 | the four keys are exactly color, onColor, colorContainer, onColorContainer |
| DynamicColors.DynamicTheme | lib/theme/dynamic-colors.ts:43-100 | a generated theme has complete light and dark tables and a custom-colour record without duplicate keys |
| DynamicColors.GenerateDynamicTheme | lib/theme/dynamic-colors.ts:43-100 | the `forEach` builds exactly the specified theme |
| DynamicColors.CustomColorRecordUnique | lib/theme/dynamic-colors.ts:75-91 | the custom-colour record never holds a key twice |
| DynamicColors.CustomColorRecordKeys | lib/theme/dynamic-colors.ts:75-91 | a name is a key of the record exactly when some library group's index has that name |
| DynamicColors.LastDuplicateWins | lib/theme/dynamic-colors.ts:75-91 | a name holds the scheme of the last group carrying that name, so a later duplicate overwrites an earlier one |
| DynamicColors.DynamicThemeIgnoresContrastAndMode | lib/theme/dynamic-colors.ts:44-49 | the result does not depend on `contrast` or `isDark` |
| DynamicColors.DefaultSourceColorUsed | lib/theme/dynamic-colors.ts:45 | an absent source colour behaves as `#6750a4` |
| DynamicColors.StyleDeclaration.constructor | lib/theme/dynamic-colors.ts:161 | a fresh inline style holds no properties |
| DynamicColors.StyleDeclaration.SetProperty | lib/theme/dynamic-colors.ts:166 | `setProperty` sets one property and leaves the others alone |
| DynamicColors.ThemeWrites | lib/theme/dynamic-colors.ts:159-177 | every `setProperty` call, in order: first one per colour role present, then one per key of each custom colour's mode record; what they leave in the map is stated by the lemmas below |
| DynamicColors.ApplyDynamicTheme | lib/theme/dynamic-colors.ts:159-177 | the property map after the two loops is the old map with every write applied in order |
| DynamicColors.SetSysColorProperties | lib/theme/dynamic-colors.ts:164-167 | the first loop applies one write per role, in entry order |
| DynamicColors.SetAllCustomProperties | lib/theme/dynamic-colors.ts:170-176 | the second loop applies each custom colour's writes, in entry order |
| DynamicColors.SetCustomProperties | lib/theme/dynamic-colors.ts:172-175 | the inner loop applies one write per key of the mode's record |
| DynamicColors.ApplyWritesAppend | lib/theme/dynamic-colors.ts:159-177 | applying two lists of writes in turn is applying their concatenation |
| DynamicColors.SysColorPropertyInjective | lib/theme/dynamic-colors.ts:165 | distinct roles write distinct `--md-sys-color-…` properties |
| DynamicColors.CustomPropertyInjective | lib/theme/dynamic-colors.ts:173 | for hyphen-free colour names and camel keys, distinct pairs write distinct `--md-custom-…` properties |
| DynamicColors.SysColorPropertiesApplied | lib/theme/dynamic-colors.ts:164-167 | afterwards, each role's `--md-sys-color-…` property holds that role's colour for the chosen mode |
| DynamicColors.CustomPropertiesApplied | lib/theme/dynamic-colors.ts:170-176 | afterwards, each custom colour's `--md-custom-<name>-<key>` property holds its value for the chosen mode |
| DynamicColors.OtherPropertiesUnchanged | lib/theme/dynamic-colors.ts:159-177 | properties not starting with `--md-` are neither added, removed nor changed |
| DynamicColors.GeneratedCustomColorsWellFormed | lib/theme/dynamic-colors.ts:75-91 | with hyphen-free names, every custom colour generated has hyphen-free names and the four camel keys per mode |
| ThemeProvider.ResolveTheme | lib/theme/theme-provider.tsx:45-51 | `dark` resolves to dark; a theme other than `dark` and `system` resolves to light; `system` without system following resolves to light |
| ThemeProvider.MediaQueryDecidesOnlyForSystem | lib/theme/theme-provider.tsx:45-51 | the media query changes the outcome exactly when the theme is `system` and system following is enabled |
| ThemeProvider.SystemFollowsMediaQuery | lib/theme/theme-provider.tsx:47-48 | for `system` with system following, the resolved mode is the media query's answer |
| ThemeProvider.ResolvedWithoutMediaQuery | lib/theme/theme-provider.tsx:49-51 | otherwise the mode is dark exactly when the theme is `dark` |
| ThemeProvider.UpdatedClasses | lib/theme/theme-provider.tsx:55-62 | the class set holds the resolved mode, exactly one of `light`/`dark`, and every other class unchanged |
| ThemeProvider.MetaThemeColor | lib/theme/theme-provider.tsx:64-71 | the meta colour is the trimmed surface colour, or `#101014` (dark) / `#fffbff` (light) when that is empty |
| ThemeProvider.MetaFallbackIsTableSurface | lib/theme/theme-provider.tsx:67-69 | the two fallbacks are the surface colours of the static tables |
| ThemeProvider.BlankSurfaceFallsBack | lib/theme/theme-provider.tsx:66-68 | a surface value made only of white space (U+00A0 and U+3000 included) gives the static table's surface colour |
| ThemeProvider.StylesheetSurfaceIsMetaColor | lib/theme/theme-provider.tsx:64-71 | when the stylesheet gives a mode its table surface colour, the meta tag receives exactly that colour, unchanged by `trim` |
| ThemeProvider.ToggleTarget | lib/theme/theme-provider.tsx:119-127 | light goes to dark, system goes to the opposite of the resolved mode, anything else goes to light |
| ThemeProvider.ToggleNeverSystem | lib/theme/theme-provider.tsx:119-127 | a toggle never asks for `system` |
| ThemeProvider.ToggleFlipsResolvedMode | lib/theme/theme-provider.tsx:119-127 | for light, dark or system, the toggled theme resolves to the other mode |
| ThemeProvider.UnrecognisedThemeTogglesToLight | lib/theme/theme-provider.tsx:33-51 | an unrecognised stored theme resolves to light and toggles to light, so the first toggle changes nothing visible |
| ThemeProvider.Provider.constructor | lib/theme/theme-provider.tsx:22-29 | the first render: `theme` is the default (`system`), `resolvedTheme` is light, the storage key defaults to `octocode-theme` |
| ThemeProvider.Provider.RestoreSavedTheme | lib/theme/theme-provider.tsx:31-37 | a stored non-empty theme replaces the current one; nothing else changes |
| ThemeProvider.Provider.UpdateRootElement | lib/theme/theme-provider.tsx:55-62 | the class set loses `light`/`dark` and gains the mode's class, `data-theme` is set to the mode, and nothing else changes |
| ThemeProvider.Provider.UpdateMetaThemeColor | lib/theme/theme-provider.tsx:64-71 | when the page has the meta tag its content becomes the meta colour of the mode, computed from the surface colour the stylesheet gives the document as it stands (after the `data-theme` write); nothing else changes |
| ThemeProvider.Provider.UpdateTheme | lib/theme/theme-provider.tsx:42-72 | the resolved mode, class set, `data-theme` attribute and meta colour follow the current theme, the meta colour taken from the surface colour of the new mode's `data-theme`; theme and storage are unchanged |
| ThemeProvider.Provider.ThemeEffect | lib/theme/theme-provider.tsx:39-81 | after the effect the resolved mode, class set, `data-theme` attribute and meta colour are those `updateTheme` sets; theme, storage and media query are unchanged; the meta colour comes from the new mode's surface colour; a change listener is registered exactly when system following is enabled |
| ThemeProvider.Provider.SystemSchemeChanged | lib/theme/theme-provider.tsx:76-80 | the media-query answer is recorded; while the listener is registered, the resolved mode, class set, `data-theme` attribute and meta colour follow it as in `updateTheme`; otherwise the document is unchanged; theme and storage never change |
| ThemeProvider.Provider.SetTheme | lib/theme/theme-provider.tsx:83-86 | the state and `localStorage[storageKey]` receive the same value; the resolved mode, document and listener are unchanged |
| ThemeProvider.Provider.ToggleTheme | lib/theme/theme-provider.tsx:119-127 | the new theme is the toggle target of the old theme and resolved mode, and it is stored; the resolved mode, document and listener are unchanged |
| ThemeProvider.Provider.ToggleAndApply | lib/theme/theme-provider.tsx:119-127 | from a consistent state with a declared theme, a toggle followed by its effect stores and selects the toggle target (never `system`), flips the resolved mode, updates classes, `data-theme` and meta colour to it (the meta colour from the stylesheet's surface for the new mode), and leaves the media query alone |

## Left out

- The colour science of `@material/material-color-utilities`: `argbFromHex`, `Hct`, `themeFromSourceColor`, tonal palettes and harmonisation. It is an abstract `ColorLibrary` parameter with only range assumptions, because it is not part of this repository.
- DynamicColors.ExtractSchemeColors: the model takes each scheme field to be the hex string `toHex()` would give, which is the behaviour the code intends. This is an unverified claim about the program, not a neutral choice: in the published `@material/material-color-utilities`, scheme getters return ARGB numbers, so `scheme.primary.toHex()` (lib/theme/dynamic-colors.ts:107) and `customColor.light.color.toHex()` (lib/theme/dynamic-colors.ts:79) would throw a TypeError. The colour library is not part of this model, so the model cannot show it, and the modelled `DynamicTheme` is the intended result, not the code as written.
- `getLuminance`'s `Math.pow(…, 2.4)` curve: it is a parameter assumed only to map [0, 1] into [0, 1]. Floating-point rounding, NaN and the accumulation of `adjustedTone += step` are not modelled; numbers are exact reals.
- The DOM, `localStorage` and `matchMedia` are plain fields and maps, and `getComputedStyle` is a fixed stylesheet function. React rendering, effect scheduling, the context object and `useTheme`'s throw outside a provider are left out.
- ThemeProvider.Provider.UpdateMetaThemeColor: the computed `--md-sys-color-surface` value depends only on the root's `data-theme` attribute, through the stylesheet function `surfaceStyle`, which no operation changes. It is read after the `data-theme` write, as the source does. A stylesheet keyed on the `light`/`dark` classes, on a media query or on inline styles is not modelled.
- ThemeProvider.Provider.ToggleAndApply: models the click followed by the effect that the resulting re-render runs, as one method.
- DynamicColors.ApplyDynamicTheme: the theme's colours are a map from the 37 roles, written in role order; as each role writes its own property, the resulting property map is the same in any order. A hand-built theme with keys that are not colour roles, which the source would also write as `--md-sys-color-<kebab(key)>` in its own key order, cannot be expressed; themes from `generateDynamicTheme` have exactly the role keys.
- JavaScript's ordering of integer-like object keys before other keys, and the special `__proto__` key, are not modelled. Records keep pure insertion order.
- Case mapping is ASCII only; JavaScript's `toLowerCase`/`toUpperCase` cover all of Unicode.
- `cn` wraps `clsx`, which is not part of this model. It is modelled as joining the non-empty strings with single spaces. Variant values are booleans standing for JavaScript truthiness.
- ThemeUtils.RgbToHex: requires channels in 0..255, where no shift overflows 32 bits; out-of-range channels are not modelled.
- DynamicColors.EnsureContrastMeetsTarget: excludes the black and white results, which are the fallback and need not meet the target.
- DynamicColors.EnsureContrastIdempotent: is stated for results other than black or white, for the same reason.
- DynamicColors.CustomPropertiesApplied: is stated for hyphen-free custom-colour names. With hyphens, two names can write the same property (`x` with key `onColor` and `x-on` with key `color`), and the later write wins.
- `isValidHexColor` and `camelToKebab` occur in both `lib/theme/dynamic-colors.ts` and `lib/utils/theme-utils.ts` with identical code; each is modelled once, in `ThemeUtils`.
- `generateThemeFromImage` is a placeholder that logs and returns the default theme; it is left out.
- `debounce` and `throttle` (timers), `createStateLayer` (opacity arithmetic) and `createFocusRing` (a style literal) are left out.
- `getCSSCustomProperty`, `setCSSCustomProperty`, `prefersReducedMotion`, `prefersHighContrast`, `getPreferredColorScheme` and `createThemeMediaQuery` are left out. They are thin browser API calls. `getCurrentTheme` is kept as a function of the `data-theme` attribute.
- The typography, elevation, motion, shape, state, spacing and size token tables hold CSS strings and opacities with no logic; only their names enter the model.
