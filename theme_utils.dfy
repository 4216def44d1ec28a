/** lib/utils/theme-utils.ts: case rewriting of token names, hex colour
    parsing and printing, the WCAG luminance contrast ratio and thresholds,
    component class lists and CSS custom-property names. */
module ThemeUtils {
  import opened Wrappers
  import opened Text
  import opened Tokens

  // ---------------------------------------------------------------------
  // camelToKebab / kebabToCamel
  // ---------------------------------------------------------------------

  /** `replace(/([a-z0-9])([A-Z])/g, '$1-$2')`: scanning left to right, a
      lower-case letter or digit directly followed by an upper-case letter
      gets a hyphen between the two, and the scan resumes after the pair. */
  function SplitWords(s: string): string
  {
    if |s| >= 2 && IsLowerOrDigit(s[0]) && IsUpper(s[1]) then [s[0], '-', s[1]] + SplitWords(s[2..])
    else if s == [] then []
    else [s[0]] + SplitWords(s[1..])
  }

  /** `camelToKebab`: split the words, then `toLowerCase`. */
  function CamelToKebab(s: string): (r: string)
    ensures forall i :: 0 <= i < |r| ==> !IsUpper(r[i])
  {
    Lower(SplitWords(s))
  }

  /** Reference definition, one character at a time: a hyphen goes before
      each upper-case letter whose predecessor is a lower-case letter or a
      digit (`afterLowerOrDigit` says whether it is), and every character is
      lower-cased. */
  function Hyphenate(afterLowerOrDigit: bool, s: string): string
    decreases |s|
  {
    if s == [] then []
    else (if afterLowerOrDigit && IsUpper(s[0]) then "-" else "")
         + [LowerChar(s[0])] + Hyphenate(IsLowerOrDigit(s[0]), s[1..])
  }

  lemma HyphenateNotBeforeUpper(t: string)
    requires t == [] || !IsUpper(t[0])
    ensures Hyphenate(true, t) == Hyphenate(false, t)
  {
  }

  /** One step of `camelToKebab` at a word break. */
  lemma CamelToKebabAtBreak(s: string)
    requires |s| >= 2 && IsLowerOrDigit(s[0]) && IsUpper(s[1])
    ensures CamelToKebab(s) == [s[0], '-', LowerChar(s[1])] + CamelToKebab(s[2..])
  {
    LowerAppend([s[0], '-', s[1]], SplitWords(s[2..]));
  }

  /** One step of `camelToKebab` elsewhere. */
  lemma CamelToKebabStep(s: string)
    requires s != [] && !(|s| >= 2 && IsLowerOrDigit(s[0]) && IsUpper(s[1]))
    ensures CamelToKebab(s) == [LowerChar(s[0])] + CamelToKebab(s[1..])
  {
    LowerAppend([s[0]], SplitWords(s[1..]));
  }

  lemma HyphenateUnfold(b: bool, s: string)
    requires s != []
    ensures Hyphenate(b, s) == (if b && IsUpper(s[0]) then "-" else "") + [LowerChar(s[0])]
                               + Hyphenate(IsLowerOrDigit(s[0]), s[1..])
  {
  }

  lemma HyphenateAtBreak(s: string)
    requires |s| >= 2 && IsLowerOrDigit(s[0]) && IsUpper(s[1])
    ensures Hyphenate(false, s) == [s[0], '-', LowerChar(s[1])] + Hyphenate(false, s[2..])
  {
    var rest := Hyphenate(false, s[2..]);
    assert s[1..][1..] == s[2..];
    HyphenateUnfold(true, s[1..]);
    HyphenateUnfold(false, s);
    assert [s[0]] + ("-" + [LowerChar(s[1])] + rest) == [s[0], '-', LowerChar(s[1])] + rest;
  }

  /** `camelToKebab` inserts exactly one hyphen before each upper-case letter
      that follows a lower-case letter or digit, and otherwise only
      lower-cases. */
  lemma {:induction false} CamelToKebabHyphenates(s: string)
    ensures CamelToKebab(s) == Hyphenate(false, s)
    decreases |s|
  {
    if s == [] {
    } else if |s| >= 2 && IsLowerOrDigit(s[0]) && IsUpper(s[1]) {
      CamelToKebabHyphenates(s[2..]);
      CamelToKebabAtBreak(s);
      HyphenateAtBreak(s);
    } else {
      CamelToKebabHyphenates(s[1..]);
      CamelToKebabStep(s);
      if IsLowerOrDigit(s[0]) {
        HyphenateNotBeforeUpper(s[1..]);
      }
    }
  }

  /** A string with no upper-case letter is its own kebab form. */
  lemma {:induction false} CamelToKebabKeepsLowerCase(s: string)
    requires forall i :: 0 <= i < |s| ==> !IsUpper(s[i])
    ensures CamelToKebab(s) == s
  {
    CamelToKebabHyphenates(s);
    HyphenateIdentity(false, s);
  }

  lemma {:induction false} HyphenateIdentity(b: bool, s: string)
    requires forall i :: 0 <= i < |s| ==> !IsUpper(s[i])
    ensures Hyphenate(b, s) == s
    decreases |s|
  {
    if s != [] {
      HyphenateIdentity(IsLowerOrDigit(s[0]), s[1..]);
    }
  }

  /** `kebabToCamel`: `replace(/-([a-z])/g, (_, letter) => letter.toUpperCase())`. */
  function KebabToCamel(s: string): string
  {
    if |s| >= 2 && s[0] == '-' && IsLower(s[1]) then [UpperChar(s[1])] + KebabToCamel(s[2..])
    else if s == [] then []
    else [s[0]] + KebabToCamel(s[1..])
  }

  /** Without a hyphen there is nothing for `kebabToCamel` to rewrite. */
  lemma {:induction false} KebabToCamelWithoutHyphens(s: string)
    requires '-' !in s
    ensures KebabToCamel(s) == s
  {
    if s != [] {
      assert forall c :: c in s[1..] ==> c in s;
      KebabToCamelWithoutHyphens(s[1..]);
    }
  }

  /** The strings on which `kebabToCamel` undoes `camelToKebab`: no hyphen,
      and every upper-case letter follows a lower-case letter or digit (so
      the first character is not upper-case). */
  predicate IsCamelName(s: string)
  {
    && (forall i :: 0 <= i < |s| ==> s[i] != '-')
    && (s != [] ==> !IsUpper(s[0]))
    && (forall i :: 0 < i < |s| ==> IsUpper(s[i]) ==> IsLowerOrDigit(s[i - 1]))
  }

  lemma KebabToCamelPlain(c: char, t: string)
    requires c != '-'
    ensures KebabToCamel([c] + t) == [c] + KebabToCamel(t)
  {
    assert ([c] + t)[1..] == t;
  }

  lemma KebabToCamelHyphen(c: char, t: string)
    requires IsLower(c)
    ensures KebabToCamel(['-', c] + t) == [UpperChar(c)] + KebabToCamel(t)
  {
    assert (['-', c] + t)[2..] == t;
  }

  lemma CamelNameSuffix(s: string, k: nat)
    requires IsCamelName(s) && k <= |s|
    requires k < |s| ==> !IsUpper(s[k])
    ensures IsCamelName(s[k..])
  {
    assert forall i :: 0 <= i < |s| - k ==> s[k..][i] == s[k + i];
  }

  lemma RoundTripAtBreak(s: string)
    requires |s| >= 2 && IsLowerOrDigit(s[0]) && IsUpper(s[1])
    requires KebabToCamel(CamelToKebab(s[2..])) == s[2..]
    ensures KebabToCamel(CamelToKebab(s)) == s
  {
    CamelToKebabAtBreak(s);
    var k := CamelToKebab(s[2..]);
    assert [s[0], '-', LowerChar(s[1])] + k == [s[0]] + (['-', LowerChar(s[1])] + k);
    KebabToCamelPlain(s[0], ['-', LowerChar(s[1])] + k);
    KebabToCamelHyphen(LowerChar(s[1]), k);
    assert s == [s[0]] + [s[1]] + s[2..];
  }

  lemma RoundTripStep(s: string)
    requires s != [] && s[0] != '-' && !IsUpper(s[0])
    requires !(|s| >= 2 && IsLowerOrDigit(s[0]) && IsUpper(s[1]))
    requires KebabToCamel(CamelToKebab(s[1..])) == s[1..]
    ensures KebabToCamel(CamelToKebab(s)) == s
  {
    CamelToKebabStep(s);
    KebabToCamelPlain(s[0], CamelToKebab(s[1..]));
    assert s == [s[0]] + s[1..];
  }

  /** Round trip: `kebabToCamel(camelToKebab(s)) == s` for camel-case names. */
  lemma {:induction false} KebabToCamelInvertsCamelToKebab(s: string)
    requires IsCamelName(s)
    ensures KebabToCamel(CamelToKebab(s)) == s
    decreases |s|
  {
    if s == [] {
    } else if |s| >= 2 && IsLowerOrDigit(s[0]) && IsUpper(s[1]) {
      assert |s| > 2 ==> !IsUpper(s[2]);
      CamelNameSuffix(s, 2);
      KebabToCamelInvertsCamelToKebab(s[2..]);
      RoundTripAtBreak(s);
    } else {
      assert |s| > 1 ==> !IsUpper(s[1]);
      CamelNameSuffix(s, 1);
      KebabToCamelInvertsCamelToKebab(s[1..]);
      RoundTripStep(s);
    }
  }

  /** Hence distinct camel-case names have distinct kebab forms. */
  lemma CamelToKebabInjective(a: string, b: string)
    requires IsCamelName(a) && IsCamelName(b)
    requires CamelToKebab(a) == CamelToKebab(b)
    ensures a == b
  {
    KebabToCamelInvertsCamelToKebab(a);
    KebabToCamelInvertsCamelToKebab(b);
  }

  predicate AllLower(s: string) { forall i :: 0 <= i < |s| ==> IsLower(s[i]) }

  /** Camel-case names built from a lower-case word and capitalised words. */
  lemma CamelOneWord(s: string, w: string)
    requires w != [] && AllLower(w) && s == w
    ensures IsCamelName(s)
  {
  }

  lemma CamelTwoWords(s: string, w: string, u: char, x: string)
    requires w != [] && AllLower(w) && IsUpper(u) && AllLower(x) && s == w + [u] + x
    ensures IsCamelName(s)
  {
    forall i | 0 < i < |s| && IsUpper(s[i])
      ensures IsLowerOrDigit(s[i - 1])
    {
      assert i == |w|;
    }
  }

  lemma CamelThreeWords(s: string, w: string, u: char, x: string, v: char, y: string)
    requires w != [] && AllLower(w) && IsUpper(u) && x != [] && AllLower(x) && IsUpper(v) && AllLower(y)
    requires s == w + [u] + x + [v] + y
    ensures IsCamelName(s)
  {
    forall i | 0 < i < |s| && IsUpper(s[i])
      ensures IsLowerOrDigit(s[i - 1])
    {
      assert i == |w| || i == |w| + 1 + |x|;
    }
  }

  lemma PrimaryIsCamel()
    ensures IsCamelName(RoleName(Primary))
  {
    CamelOneWord(RoleName(Primary), "primary");
  }

  lemma OnPrimaryIsCamel()
    ensures IsCamelName(RoleName(OnPrimary))
  {
    CamelTwoWords(RoleName(OnPrimary), "on", 'P', "rimary");
  }

  lemma PrimaryContainerIsCamel()
    ensures IsCamelName(RoleName(PrimaryContainer))
  {
    CamelTwoWords(RoleName(PrimaryContainer), "primary", 'C', "ontainer");
  }

  lemma OnPrimaryContainerIsCamel()
    ensures IsCamelName(RoleName(OnPrimaryContainer))
  {
    CamelThreeWords(RoleName(OnPrimaryContainer), "on", 'P', "rimary", 'C', "ontainer");
  }

  lemma SecondaryIsCamel()
    ensures IsCamelName(RoleName(Secondary))
  {
    CamelOneWord(RoleName(Secondary), "secondary");
  }

  lemma OnSecondaryIsCamel()
    ensures IsCamelName(RoleName(OnSecondary))
  {
    CamelTwoWords(RoleName(OnSecondary), "on", 'S', "econdary");
  }

  lemma SecondaryContainerIsCamel()
    ensures IsCamelName(RoleName(SecondaryContainer))
  {
    CamelTwoWords(RoleName(SecondaryContainer), "secondary", 'C', "ontainer");
  }

  lemma OnSecondaryContainerIsCamel()
    ensures IsCamelName(RoleName(OnSecondaryContainer))
  {
    CamelThreeWords(RoleName(OnSecondaryContainer), "on", 'S', "econdary", 'C', "ontainer");
  }

  lemma TertiaryIsCamel()
    ensures IsCamelName(RoleName(Tertiary))
  {
    CamelOneWord(RoleName(Tertiary), "tertiary");
  }

  lemma OnTertiaryIsCamel()
    ensures IsCamelName(RoleName(OnTertiary))
  {
    CamelTwoWords(RoleName(OnTertiary), "on", 'T', "ertiary");
  }

  lemma TertiaryContainerIsCamel()
    ensures IsCamelName(RoleName(TertiaryContainer))
  {
    CamelTwoWords(RoleName(TertiaryContainer), "tertiary", 'C', "ontainer");
  }

  lemma OnTertiaryContainerIsCamel()
    ensures IsCamelName(RoleName(OnTertiaryContainer))
  {
    CamelThreeWords(RoleName(OnTertiaryContainer), "on", 'T', "ertiary", 'C', "ontainer");
  }

  lemma ErrorIsCamel()
    ensures IsCamelName(RoleName(Error))
  {
    CamelOneWord(RoleName(Error), "error");
  }

  lemma OnErrorIsCamel()
    ensures IsCamelName(RoleName(OnError))
  {
    CamelTwoWords(RoleName(OnError), "on", 'E', "rror");
  }

  lemma ErrorContainerIsCamel()
    ensures IsCamelName(RoleName(ErrorContainer))
  {
    CamelTwoWords(RoleName(ErrorContainer), "error", 'C', "ontainer");
  }

  lemma OnErrorContainerIsCamel()
    ensures IsCamelName(RoleName(OnErrorContainer))
  {
    CamelThreeWords(RoleName(OnErrorContainer), "on", 'E', "rror", 'C', "ontainer");
  }

  lemma BackgroundIsCamel()
    ensures IsCamelName(RoleName(Background))
  {
    CamelOneWord(RoleName(Background), "background");
  }

  lemma OnBackgroundIsCamel()
    ensures IsCamelName(RoleName(OnBackground))
  {
    CamelTwoWords(RoleName(OnBackground), "on", 'B', "ackground");
  }

  lemma SurfaceIsCamel()
    ensures IsCamelName(RoleName(Surface))
  {
    CamelOneWord(RoleName(Surface), "surface");
  }

  lemma OnSurfaceIsCamel()
    ensures IsCamelName(RoleName(OnSurface))
  {
    CamelTwoWords(RoleName(OnSurface), "on", 'S', "urface");
  }

  lemma SurfaceVariantIsCamel()
    ensures IsCamelName(RoleName(SurfaceVariant))
  {
    CamelTwoWords(RoleName(SurfaceVariant), "surface", 'V', "ariant");
  }

  lemma OnSurfaceVariantIsCamel()
    ensures IsCamelName(RoleName(OnSurfaceVariant))
  {
    CamelThreeWords(RoleName(OnSurfaceVariant), "on", 'S', "urface", 'V', "ariant");
  }

  lemma SurfaceDimIsCamel()
    ensures IsCamelName(RoleName(SurfaceDim))
  {
    CamelTwoWords(RoleName(SurfaceDim), "surface", 'D', "im");
  }

  lemma SurfaceBrightIsCamel()
    ensures IsCamelName(RoleName(SurfaceBright))
  {
    CamelTwoWords(RoleName(SurfaceBright), "surface", 'B', "right");
  }

  lemma SurfaceContainerLowestIsCamel()
    ensures IsCamelName(RoleName(SurfaceContainerLowest))
  {
    CamelThreeWords(RoleName(SurfaceContainerLowest), "surface", 'C', "ontainer", 'L', "owest");
  }

  lemma SurfaceContainerLowIsCamel()
    ensures IsCamelName(RoleName(SurfaceContainerLow))
  {
    CamelThreeWords(RoleName(SurfaceContainerLow), "surface", 'C', "ontainer", 'L', "ow");
  }

  lemma SurfaceContainerIsCamel()
    ensures IsCamelName(RoleName(SurfaceContainer))
  {
    CamelTwoWords(RoleName(SurfaceContainer), "surface", 'C', "ontainer");
  }

  lemma SurfaceContainerHighIsCamel()
    ensures IsCamelName(RoleName(SurfaceContainerHigh))
  {
    CamelThreeWords(RoleName(SurfaceContainerHigh), "surface", 'C', "ontainer", 'H', "igh");
  }

  lemma SurfaceContainerHighestIsCamel()
    ensures IsCamelName(RoleName(SurfaceContainerHighest))
  {
    CamelThreeWords(RoleName(SurfaceContainerHighest), "surface", 'C', "ontainer", 'H', "ighest");
  }

  lemma OutlineIsCamel()
    ensures IsCamelName(RoleName(Outline))
  {
    CamelOneWord(RoleName(Outline), "outline");
  }

  lemma OutlineVariantIsCamel()
    ensures IsCamelName(RoleName(OutlineVariant))
  {
    CamelTwoWords(RoleName(OutlineVariant), "outline", 'V', "ariant");
  }

  lemma InverseSurfaceIsCamel()
    ensures IsCamelName(RoleName(InverseSurface))
  {
    CamelTwoWords(RoleName(InverseSurface), "inverse", 'S', "urface");
  }

  lemma InverseOnSurfaceIsCamel()
    ensures IsCamelName(RoleName(InverseOnSurface))
  {
    CamelThreeWords(RoleName(InverseOnSurface), "inverse", 'O', "n", 'S', "urface");
  }

  lemma InversePrimaryIsCamel()
    ensures IsCamelName(RoleName(InversePrimary))
  {
    CamelTwoWords(RoleName(InversePrimary), "inverse", 'P', "rimary");
  }

  lemma ShadowIsCamel()
    ensures IsCamelName(RoleName(Shadow))
  {
    CamelOneWord(RoleName(Shadow), "shadow");
  }

  lemma ScrimIsCamel()
    ensures IsCamelName(RoleName(Scrim))
  {
    CamelOneWord(RoleName(Scrim), "scrim");
  }

  lemma SurfaceTintIsCamel()
    ensures IsCamelName(RoleName(SurfaceTint))
  {
    CamelTwoWords(RoleName(SurfaceTint), "surface", 'T', "int");
  }

  /** Every colour role's key is a camel-case name. */
  lemma RoleNameIsCamel(r: Role)
    ensures IsCamelName(RoleName(r))
  {
    match r
    case Primary => PrimaryIsCamel();
    case OnPrimary => OnPrimaryIsCamel();
    case PrimaryContainer => PrimaryContainerIsCamel();
    case OnPrimaryContainer => OnPrimaryContainerIsCamel();
    case Secondary => SecondaryIsCamel();
    case OnSecondary => OnSecondaryIsCamel();
    case SecondaryContainer => SecondaryContainerIsCamel();
    case OnSecondaryContainer => OnSecondaryContainerIsCamel();
    case Tertiary => TertiaryIsCamel();
    case OnTertiary => OnTertiaryIsCamel();
    case TertiaryContainer => TertiaryContainerIsCamel();
    case OnTertiaryContainer => OnTertiaryContainerIsCamel();
    case Error => ErrorIsCamel();
    case OnError => OnErrorIsCamel();
    case ErrorContainer => ErrorContainerIsCamel();
    case OnErrorContainer => OnErrorContainerIsCamel();
    case Background => BackgroundIsCamel();
    case OnBackground => OnBackgroundIsCamel();
    case Surface => SurfaceIsCamel();
    case OnSurface => OnSurfaceIsCamel();
    case SurfaceVariant => SurfaceVariantIsCamel();
    case OnSurfaceVariant => OnSurfaceVariantIsCamel();
    case SurfaceDim => SurfaceDimIsCamel();
    case SurfaceBright => SurfaceBrightIsCamel();
    case SurfaceContainerLowest => SurfaceContainerLowestIsCamel();
    case SurfaceContainerLow => SurfaceContainerLowIsCamel();
    case SurfaceContainer => SurfaceContainerIsCamel();
    case SurfaceContainerHigh => SurfaceContainerHighIsCamel();
    case SurfaceContainerHighest => SurfaceContainerHighestIsCamel();
    case Outline => OutlineIsCamel();
    case OutlineVariant => OutlineVariantIsCamel();
    case InverseSurface => InverseSurfaceIsCamel();
    case InverseOnSurface => InverseOnSurfaceIsCamel();
    case InversePrimary => InversePrimaryIsCamel();
    case Shadow => ShadowIsCamel();
    case Scrim => ScrimIsCamel();
    case SurfaceTint => SurfaceTintIsCamel();
  }

  /** Distinct roles have distinct CSS names: the kebab keys of a colour
      record never collide. */
  lemma RoleCssNamesDistinct(a: Role, b: Role)
    ensures CamelToKebab(RoleName(a)) == CamelToKebab(RoleName(b)) ==> a == b
  {
    if CamelToKebab(RoleName(a)) == CamelToKebab(RoleName(b)) {
      RoleNameIsCamel(a);
      RoleNameIsCamel(b);
      CamelToKebabInjective(RoleName(a), RoleName(b));
      RoleNameInjective(a, b);
    }
  }

  // ---------------------------------------------------------------------
  // isValidHexColor / hexToRgb / rgbToHex
  // ---------------------------------------------------------------------

  /** `/^#([A-Fa-f0-9]{6}|[A-Fa-f0-9]{3})$/`. */
  predicate IsValidHexColor(color: string)
  {
    (|color| == 7 || |color| == 4) && color[0] == '#' && AllHexDigits(color[1..])
  }

  /** An RGB triple as `hexToRgb` returns it. */
  datatype Rgb = Rgb(r: int, g: int, b: int)

  predicate IsByte(x: int) { 0 <= x < 256 }

  /** `parseInt(hi + lo, 16)`. */
  function ParseByte(hi: char, lo: char): (v: int)
    requires IsHexDigit(hi) && IsHexDigit(lo)
    ensures IsByte(v)
  {
    16 * HexValue(hi) + HexValue(lo)
  }

  /** The digits `hexToRgb` matches: the colour with one leading `#` removed. */
  function HexDigitsOf(hex: string): string
  {
    if |hex| > 0 && hex[0] == '#' then hex[1..] else hex
  }

  /** `/^#?([a-f\d]{2})([a-f\d]{2})([a-f\d]{2})$/i`: exactly six hex digits,
      optionally after one `#`; anything else (including the three-digit
      short form) gives null. */
  function HexToRgb(hex: string): (rgb: Option<Rgb>)
    ensures rgb.Some? <==> (|hex| == 7 && hex[0] == '#' && AllHexDigits(hex[1..])) || (|hex| == 6 && AllHexDigits(hex))
    ensures rgb.Some? ==> IsByte(rgb.value.r) && IsByte(rgb.value.g) && IsByte(rgb.value.b)
  {
    var d := HexDigitsOf(hex);
    if |d| == 6 && AllHexDigits(d) then
      Some(Rgb(ParseByte(d[0], d[1]), ParseByte(d[2], d[3]), ParseByte(d[4], d[5])))
    else
      None
  }

  /** A valid hex colour is parsed exactly when it is the six-digit form. */
  lemma ValidHexColorParses(color: string)
    requires IsValidHexColor(color)
    ensures HexToRgb(color).Some? <==> |color| == 7
  {
  }

  /** `Number.prototype.toString(16)` of a natural number. */
  function ToHexString(n: nat): (s: string)
    ensures |s| >= 1 && AllLowerHexDigits(s)
  {
    if n < 16 then [HexChar(n)] else ToHexString(n / 16) + [HexChar(n % 16)]
  }

  function Pow16(k: nat): (p: nat)
    ensures p >= 1
  {
    if k == 0 then 1 else 16 * Pow16(k - 1)
  }

  /** The k lowest hex digits of m, most significant first. */
  function Digits(m: nat, k: nat): (s: string)
    ensures |s| == k
  {
    if k == 0 then [] else Digits(m / 16, k - 1) + [HexChar(m % 16)]
  }

  lemma DivMod16(x: int, q: int, d: int)
    requires x == 16 * q + d && 0 <= d < 16
    ensures x / 16 == q && x % 16 == d
  {
  }

  /** Printing `16^k + m` yields a `1` followed by the k digits of m. */
  lemma {:induction false} ToHexStringLeadingOne(k: nat, m: nat, n: nat)
    requires m < Pow16(k) && n == Pow16(k) + m
    ensures ToHexString(n) == "1" + Digits(m, k)
  {
    if k > 0 {
      var m' := m / 16;
      var n' := Pow16(k - 1) + m';
      DivMod16(m, m', m % 16);
      DivMod16(n, n', m % 16);
      ToHexStringLeadingOne(k - 1, m', n');
    }
  }

  /** Two hex digits of a byte. */
  function ByteHex(x: int): (s: string)
    requires IsByte(x)
    ensures |s| == 2 && IsLowerHexDigit(s[0]) && IsLowerHexDigit(s[1])
    ensures HexValue(s[0]) == x / 16 && HexValue(s[1]) == x % 16
  {
    [HexChar(x / 16), HexChar(x % 16)]
  }

  lemma ByteDigits(x: int)
    requires IsByte(x)
    ensures Digits(x, 2) == ByteHex(x)
  {
  }

  /** `'#' + ((1 << 24) + (r << 16) + (g << 8) + b).toString(16).slice(1)`,
      for channels in 0..255 (where no shift overflows 32 bits). */
  function RgbToHex(r: int, g: int, b: int): (hex: string)
    requires IsByte(r) && IsByte(g) && IsByte(b)
    ensures IsCanonicalHex(hex)
    ensures hex == "#" + ByteHex(r) + ByteHex(g) + ByteHex(b)
  {
    var n := 0x100_0000 + r * 0x1_0000 + g * 0x100 + b;
    RgbToHexDigits(r, g, b, n);
    "#" + ToHexString(n)[1..]
  }

  lemma Pow16Six()
    ensures Pow16(6) == 0x100_0000
  {
    assert Pow16(1) == 16;
    assert Pow16(3) == 0x1000;
    assert Pow16(5) == 0x10_0000;
  }

  /** The digits of `a * 256 + b`, for a byte b, are those of a followed
      by the two of b. */
  lemma DigitsSplit(a: nat, b: nat, i: nat, n: nat)
    requires b < 0x100 && n == a * 0x100 + b
    ensures Digits(n, i + 2) == Digits(a, i) + Digits(b, 2)
  {
    var hi := b / 16;
    var lo := b % 16;
    DivMod16(b, hi, lo);
    var q := 16 * a + hi;
    DivMod16(n, q, lo);
    DivMod16(q, a, hi);
    DivMod16(hi, 0, hi);
    assert Digits(n, i + 2) == Digits(q, i + 1) + [HexChar(lo)];
    assert Digits(q, i + 1) == Digits(a, i) + [HexChar(hi)];
    assert Digits(b, 2) == Digits(hi, 1) + [HexChar(lo)];
    assert Digits(hi, 1) == [HexChar(hi)];
  }

  lemma SixDigits(r: nat, g: nat, b: nat, rg: nat, m: nat)
    requires IsByte(r) && IsByte(g) && IsByte(b)
    requires rg == r * 0x100 + g && m == rg * 0x100 + b
    ensures Digits(m, 6) == ByteHex(r) + ByteHex(g) + ByteHex(b)
  {
    DigitsSplit(r, g, 2, rg);
    DigitsSplit(rg, b, 4, m);
    ByteDigits(r);
    ByteDigits(g);
    ByteDigits(b);
  }

  lemma RgbToHexDigits(r: nat, g: nat, b: nat, n: nat)
    requires IsByte(r) && IsByte(g) && IsByte(b)
    requires n == 0x100_0000 + r * 0x1_0000 + g * 0x100 + b
    ensures ToHexString(n) == "1" + ByteHex(r) + ByteHex(g) + ByteHex(b)
  {
    var rg := r * 0x100 + g;
    var m := rg * 0x100 + b;
    Pow16Six();
    ToHexStringLeadingOne(6, m, n);
    SixDigits(r, g, b, rg, m);
  }

  /** Round trip: parsing a printed colour gives back its channels. */
  lemma HexToRgbInvertsRgbToHex(r: int, g: int, b: int)
    requires IsByte(r) && IsByte(g) && IsByte(b)
    ensures HexToRgb(RgbToHex(r, g, b)) == Some(Rgb(r, g, b))
  {
    var d := HexDigitsOf(RgbToHex(r, g, b));
    assert d == ByteHex(r) + ByteHex(g) + ByteHex(b);
    assert d[0..2] == ByteHex(r) && d[2..4] == ByteHex(g) && d[4..6] == ByteHex(b);
    ParseByteHex(r);
    ParseByteHex(g);
    ParseByteHex(b);
  }

  lemma ParseByteHex(x: int)
    requires IsByte(x)
    ensures ParseByte(ByteHex(x)[0], ByteHex(x)[1]) == x
  {
  }

  lemma ByteHexOfParse(hi: char, lo: char)
    requires IsHexDigit(hi) && IsHexDigit(lo)
    ensures ByteHex(ParseByte(hi, lo)) == [LowerChar(hi), LowerChar(lo)]
  {
    var v := ParseByte(hi, lo);
    assert v / 16 == HexValue(hi) && v % 16 == HexValue(lo);
    HexCharOfValue(hi);
    HexCharOfValue(lo);
  }

  /** Round trip the other way: printing a parsed colour gives its six
      digits, lower-cased, after a `#`. */
  lemma RgbToHexInvertsHexToRgb(hex: string)
    requires HexToRgb(hex).Some?
    ensures var c := HexToRgb(hex).value; RgbToHex(c.r, c.g, c.b) == "#" + Lower(HexDigitsOf(hex))
  {
    var d := HexDigitsOf(hex);
    ByteHexOfParse(d[0], d[1]);
    ByteHexOfParse(d[2], d[3]);
    ByteHexOfParse(d[4], d[5]);
    var c := HexToRgb(hex).value;
    assert ByteHex(c.r) + ByteHex(c.g) + ByteHex(c.b) == Lower(d);
  }

  /** The three-digit form passes `isValidHexColor` but `hexToRgb` rejects it. */
  lemma ShortHexNotParsed(color: string)
    requires IsValidHexColor(color) && |color| == 4
    ensures HexToRgb(color).None?
  {
  }

  /** A canonical colour parses, and printing it back gives the same string. */
  lemma CanonicalHexRoundTrip(hex: string)
    requires IsCanonicalHex(hex)
    ensures HexToRgb(hex).Some?
    ensures var c := HexToRgb(hex).value; RgbToHex(c.r, c.g, c.b) == hex
  {
    RgbToHexInvertsHexToRgb(hex);
    assert Lower(hex[1..]) == hex[1..];
    assert "#" + hex[1..] == hex;
  }

  /** Every colour of the static tables parses with `hexToRgb`, and
      `rgbToHex` prints it back unchanged. */
  lemma TableColoursParse(m: Mode, r: Role)
    ensures r in Md3Colors(m) && HexToRgb(Md3Colors(m)[r]).Some?
    ensures var c := HexToRgb(Md3Colors(m)[r]).value; RgbToHex(c.r, c.g, c.b) == Md3Colors(m)[r]
  {
    TablesCanonical(r);
    CanonicalHexRoundTrip(Md3Colors(m)[r]);
  }

  // ---------------------------------------------------------------------
  // getLuminance / getContrastRatio / meetsContrastRequirement
  // ---------------------------------------------------------------------

  /** The sRGB transfer curve `Math.pow((c + 0.055) / 1.055, 2.4)` is not
      modelled: a `curve` parameter stands for it, assumed only to map
      [0, 1] into [0, 1]. */
  ghost predicate IsUnitCurve(curve: real -> real)
  {
    forall x: real :: 0.0 <= x <= 1.0 ==> 0.0 <= curve(x) <= 1.0
  }

  /** One channel of `getLuminance`, linearised. */
  function Linearize(c: int, curve: real -> real): (v: real)
    requires IsByte(c) && IsUnitCurve(curve)
    ensures 0.0 <= v <= 1.0
  {
    var x := c as real / 255.0;
    if x <= 0.03928 then x / 12.92 else curve((x + 0.055) / 1.055)
  }

  /** `getLuminance`: the relative luminance of a parsed colour, and 0 for a
      string `hexToRgb` rejects. */
  function Luminance(color: string, curve: real -> real): (l: real)
    requires IsUnitCurve(curve)
    ensures 0.0 <= l <= 1.0
    ensures HexToRgb(color).None? ==> l == 0.0
  {
    match HexToRgb(color)
    case None => 0.0
    case Some(c) => 0.2126 * Linearize(c.r, curve) + 0.7152 * Linearize(c.g, curve) + 0.0722 * Linearize(c.b, curve)
  }

  function Max(a: real, b: real): real { if a >= b then a else b }
  function Min(a: real, b: real): real { if a <= b then a else b }

  /** `(lighter + 0.05) / (darker + 0.05)` for luminances in [0, 1]. */
  function LuminanceRatio(lighter: real, darker: real): (ratio: real)
    requires 0.0 <= darker <= lighter <= 1.0
    ensures 1.0 <= ratio <= 21.0
    ensures ratio == 1.0 <==> lighter == darker
  {
    var q := (lighter + 0.05) / (darker + 0.05);
    assert q * (darker + 0.05) == lighter + 0.05;
    QuotientBounds(lighter + 0.05, darker + 0.05, q);
    q
  }

  lemma MulPositive(a: real, b: real)
    requires a > 0.0 && b > 0.0
    ensures a * b > 0.0
  {
  }

  lemma SubMul(a: real, b: real, c: real)
    ensures (a - b) * c == a * c - b * c
  {
  }

  lemma AtLeast(num: real, den: real, q: real, k: real)
    requires den > 0.0 && q * den == num && num >= k * den
    ensures q >= k
  {
    if q < k {
      MulPositive(k - q, den);
      SubMul(k, q, den);
    }
  }

  lemma AtMost(num: real, den: real, q: real, k: real)
    requires den > 0.0 && q * den == num && num <= k * den
    ensures q <= k
  {
    if q > k {
      MulPositive(q - k, den);
      SubMul(q, k, den);
    }
  }

  lemma OneOnlyForEqual(num: real, den: real, q: real)
    requires q * den == num && q == 1.0
    ensures num == den
  {
  }

  /** A quotient `q` of `num` by `den` with `den <= num <= 21 * den` lies in [1, 21], and is 1 exactly when `num == den`. */
  lemma QuotientBounds(num: real, den: real, q: real)
    requires 0.0 < den <= num <= 21.0 * den && q * den == num
    ensures 1.0 <= q <= 21.0
    ensures q == 1.0 <==> num == den
  {
    AtLeast(num, den, q, 1.0);
    AtMost(num, den, q, 21.0);
    if num == den {
      AtMost(num, den, q, 1.0);
    }
    if q == 1.0 {
      OneOnlyForEqual(num, den, q);
    }
  }

  /** `getContrastRatio` of theme-utils.ts: the ratio of the lighter to the
      darker luminance, which lies between 1 and 21 and is 1 exactly when
      the luminances agree. */
  function ContrastRatio(color1: string, color2: string, curve: real -> real): (ratio: real)
    requires IsUnitCurve(curve)
    ensures 1.0 <= ratio <= 21.0
    ensures ratio == 1.0 <==> Luminance(color1, curve) == Luminance(color2, curve)
  {
    var lum1 := Luminance(color1, curve);
    var lum2 := Luminance(color2, curve);
    LuminanceRatio(Max(lum1, lum2), Min(lum1, lum2))
  }

  lemma ContrastRatioSymmetric(color1: string, color2: string, curve: real -> real)
    requires IsUnitCurve(curve)
    ensures ContrastRatio(color1, color2, curve) == ContrastRatio(color2, color1, curve)
  {
  }

  /** An unparseable colour counts as luminance 0, so two unparseable
      colours (such as two three-digit hex colours) have ratio exactly 1. */
  lemma ContrastRatioOfUnparsed(color1: string, color2: string, curve: real -> real)
    requires IsUnitCurve(curve)
    ensures HexToRgb(color1).None? ==> ContrastRatio(color1, color2, curve) == (Luminance(color2, curve) + 0.05) / 0.05
    ensures HexToRgb(color1).None? && HexToRgb(color2).None? ==> ContrastRatio(color1, color2, curve) == 1.0
  {
  }

  datatype Level = AA | AAA
  datatype TextSize = NormalText | LargeText

  /** The minimum ratios of WCAG 2.1: success criterion 1.4.3 (Contrast
      (Minimum), level AA) asks for 4.5:1, or 3:1 for large text; success
      criterion 1.4.6 (Contrast (Enhanced), level AAA) asks for 7:1, or
      4.5:1 for large text. */
  function RequiredRatio(level: Level, size: TextSize): real
  {
    match (level, size)
    case (AA, NormalText) => 4.5
    case (AA, LargeText) => 3.0
    case (AAA, NormalText) => 7.0
    case (AAA, LargeText) => 4.5
  }

  /** `meetsContrastRequirement`, with the defaults AA and normal text. */
  function MeetsContrastRequirement(foreground: string, background: string, curve: real -> real,
                                    level: Level := AA, size: TextSize := NormalText): (ok: bool)
    requires IsUnitCurve(curve)
    ensures ok <==> ContrastRatio(foreground, background, curve) >= RequiredRatio(level, size)
  {
    var ratio := ContrastRatio(foreground, background, curve);
    if level == AAA then
      (if size == LargeText then ratio >= 4.5 else ratio >= 7.0)
    else
      (if size == LargeText then ratio >= 3.0 else ratio >= 4.5)
  }

  /** AAA for normal text is the strictest requirement: meeting it meets
      every level and size; and the default call is AA for normal text. */
  lemma StrictestRequirement(foreground: string, background: string, curve: real -> real, level: Level, size: TextSize)
    requires IsUnitCurve(curve)
    ensures MeetsContrastRequirement(foreground, background, curve, AAA, NormalText) ==>
              MeetsContrastRequirement(foreground, background, curve, level, size)
    ensures MeetsContrastRequirement(foreground, background, curve) ==
              MeetsContrastRequirement(foreground, background, curve, AA, NormalText)
  {
  }

  /** Two colours `hexToRgb` rejects never pass any requirement. */
  lemma UnparsedColoursFail(foreground: string, background: string, curve: real -> real, level: Level, size: TextSize)
    requires IsUnitCurve(curve)
    requires HexToRgb(foreground).None? && HexToRgb(background).None?
    ensures !MeetsContrastRequirement(foreground, background, curve, level, size)
  {
    ContrastRatioOfUnparsed(foreground, background, curve);
  }

  // ---------------------------------------------------------------------
  // cn / createComponentClasses
  // ---------------------------------------------------------------------

  /** `cn(...classes)` on strings, taken as `clsx` joins them: the non-empty
      strings, separated by single spaces. */
  function Cn(classes: seq<string>): (r: string)
    ensures r == "" <==> forall i :: 0 <= i < |classes| ==> classes[i] == ""
  {
    if classes == [] then ""
    else
      var rest := Cn(classes[1..]);
      if classes[0] == "" then rest
      else if rest == "" then classes[0]
      else classes[0] + " " + rest
  }

  /** The non-empty strings of a list, in order. */
  function NonEmpty(classes: seq<string>): seq<string>
  {
    if classes == [] then []
    else (if classes[0] == "" then [] else [classes[0]]) + NonEmpty(classes[1..])
  }

  /** The class names of a class attribute: its maximal runs of non-space
      characters. */
  function Words(s: string): seq<string>
    decreases |s|
  {
    var i := IndexOf(s, ' ');
    if i == |s| then (if s == [] then [] else [s])
    else (if i == 0 then [] else [s[..i]]) + Words(s[i + 1..])
  }

  lemma WordsOfWord(a: string)
    requires a != [] && ' ' !in a
    ensures Words(a) == [a]
  {
    assert IndexOf(a, ' ') == |a|;
  }

  lemma WordsOfJoin(a: string, b: string)
    requires a != [] && ' ' !in a
    ensures Words(a + " " + b) == [a] + Words(b)
  {
    var s := a + " " + b;
    var i := IndexOf(s, ' ');
    assert s[|a|] == ' ';
    assert forall j :: 0 <= j < |a| ==> s[j] == a[j];
    assert i == |a|;
    assert s[..i] == a && s[i + 1..] == b;
  }

  /** Splitting the joined class string gives back the non-empty classes, in
      order, as long as no class contains a space. */
  lemma {:induction false} WordsOfCn(classes: seq<string>)
    requires forall k :: 0 <= k < |classes| ==> ' ' !in classes[k]
    ensures Words(Cn(classes)) == NonEmpty(classes)
  {
    if classes != [] {
      var rest := classes[1..];
      WordsOfCn(rest);
      assert Words(Cn(rest)) == NonEmpty(rest);
      if classes[0] != "" {
        if Cn(rest) == "" {
          WordsOfWord(classes[0]);
        } else {
          WordsOfJoin(classes[0], Cn(rest));
        }
      }
    }
  }

  datatype ComponentSize = Small | Medium | Large

  function SizeName(size: ComponentSize): string
  {
    match size
    case Small => "small"
    case Medium => "medium"
    case Large => "large"
  }

  /** One `base--<kebabToCamel(key)>` class per truthy variant entry, in
      entry order. */
  function VariantClasses(base: string, variants: seq<(string, bool)>): seq<string>
  {
    if variants == [] then []
    else
      var last := variants[|variants| - 1];
      VariantClasses(base, variants[..|variants| - 1])
        + (if last.1 then [base + "--" + KebabToCamel(last.0)] else [])
  }

  /** `[c]` when the condition holds, else nothing. */
  function When(condition: bool, c: string): seq<string>
  {
    if condition then [c] else []
  }

  /** The `classes` array of `createComponentClasses` before it is joined:
      the base class, the variant classes, a size class unless the size is
      absent or medium, then the disabled, loading and custom classes. */
  function ComponentClassList(base: string, variants: seq<(string, bool)>, size: Option<ComponentSize>,
                              disabled: bool, loading: bool, className: string): (classes: seq<string>)
    ensures |classes| >= 1 && classes[0] == base
    ensures className != "" ==> classes[|classes| - 1] == className
  {
    [base] + VariantClasses(base, variants)
    + When(size.Some? && size.value != Medium, base + "--" + SizeName(size.GetOr(Medium)))
    + When(disabled, base + "--disabled")
    + When(loading, base + "--loading")
    + When(className != "", className)
  }

  /** `createComponentClasses`: pushes the classes one by one, then joins
      them with `cn`. An absent `variants` record is the empty list, absent
      flags are false and an absent `className` is "". */
  method CreateComponentClasses(base: string, variants: seq<(string, bool)>, size: Option<ComponentSize>,
                                disabled: bool, loading: bool, className: string) returns (result: string)
    ensures result == Cn(ComponentClassList(base, variants, size, disabled, loading, className))
  {
    var classes := [base];
    var i := 0;
    while i < |variants|
      invariant 0 <= i <= |variants|
      invariant classes == [base] + VariantClasses(base, variants[..i])
    {
      var (key, value) := variants[i];
      assert variants[..i + 1][..i] == variants[..i];
      if value {
        classes := classes + [base + "--" + KebabToCamel(key)];
      }
      i := i + 1;
    }
    assert variants[..|variants|] == variants;
    ghost var head := classes;
    var sized := size.Some? && size.value != Medium;
    if sized {
      classes := classes + [base + "--" + SizeName(size.value)];
    }
    assert classes == head + When(sized, base + "--" + SizeName(size.GetOr(Medium)));
    ghost var prefix := classes;
    if disabled {
      classes := classes + [base + "--disabled"];
    }
    assert classes == prefix + When(disabled, base + "--disabled");
    prefix := classes;
    if loading {
      classes := classes + [base + "--loading"];
    }
    assert classes == prefix + When(loading, base + "--loading");
    prefix := classes;
    if className != "" {
      classes := classes + [className];
    }
    assert classes == prefix + When(className != "", className);
    result := Cn(classes);
  }

  /** Class names a class attribute can carry: non-empty, without spaces. */
  predicate AllClassNames(classes: seq<string>)
  {
    forall k :: 0 <= k < |classes| ==> classes[k] != "" && ' ' !in classes[k]
  }

  lemma AllClassNamesAppend(a: seq<string>, b: seq<string>)
    requires AllClassNames(a) && AllClassNames(b)
    ensures AllClassNames(a + b)
  {
    forall k | 0 <= k < |a + b|
      ensures (a + b)[k] != "" && ' ' !in (a + b)[k]
    {
      if k >= |a| { assert (a + b)[k] == b[k - |a|]; }
    }
  }

  lemma ClassNameWith(base: string, suffix: string)
    requires ' ' !in base && ' ' !in suffix
    ensures AllClassNames([base + "--" + suffix])
  {
    var c := base + "--" + suffix;
    forall k | 0 <= k < |c| ensures c[k] != ' ' {
      if k < |base| { assert c[k] == base[k]; }
      else if k >= |base| + 2 { assert c[k] == suffix[k - |base| - 2]; }
    }
  }

  lemma {:induction false} KebabToCamelKeepsSpaces(s: string)
    ensures (' ' in KebabToCamel(s)) == (' ' in s)
    decreases |s|
  {
    if |s| >= 2 && s[0] == '-' && IsLower(s[1]) {
      KebabToCamelKeepsSpaces(s[2..]);
      assert s == s[..2] + s[2..];
    } else if s != [] {
      KebabToCamelKeepsSpaces(s[1..]);
      assert s == [s[0]] + s[1..];
    }
  }

  /** No variant class is empty or contains a space when the base and the
      variant keys contain none. */
  lemma {:induction false} VariantClassNames(base: string, variants: seq<(string, bool)>)
    requires ' ' !in base
    requires forall k :: 0 <= k < |variants| ==> ' ' !in variants[k].0
    ensures AllClassNames(VariantClasses(base, variants))
  {
    if variants != [] {
      var init := variants[..|variants| - 1];
      var last := variants[|variants| - 1];
      VariantClassNames(base, init);
      if last.1 {
        KebabToCamelKeepsSpaces(last.0);
        ClassNameWith(base, KebabToCamel(last.0));
        AllClassNamesAppend(VariantClasses(base, init), [base + "--" + KebabToCamel(last.0)]);
      }
    }
  }

  lemma {:induction false} NonEmptyOfClassNames(classes: seq<string>)
    requires AllClassNames(classes)
    ensures NonEmpty(classes) == classes
  {
    if classes != [] {
      NonEmptyOfClassNames(classes[1..]);
      assert classes == [classes[0]] + classes[1..];
    }
  }

  lemma WhenClassName(condition: bool, c: string)
    requires condition ==> c != "" && ' ' !in c
    ensures AllClassNames(When(condition, c))
  {
    if condition {
      assert AllClassNames([c]);
    }
  }

  /** Every class `createComponentClasses` pushes is a class name. */
  lemma ComponentClassNames(base: string, variants: seq<(string, bool)>, size: Option<ComponentSize>,
                            disabled: bool, loading: bool, className: string)
    requires base != "" && ' ' !in base && ' ' !in className
    requires forall k :: 0 <= k < |variants| ==> ' ' !in variants[k].0
    ensures AllClassNames(ComponentClassList(base, variants, size, disabled, loading, className))
  {
    var sized := size.Some? && size.value != Medium;
    var w1 := When(sized, base + "--" + SizeName(size.GetOr(Medium)));
    var w2 := When(disabled, base + "--disabled");
    var w3 := When(loading, base + "--loading");
    var w4 := When(className != "", className);
    VariantClassNames(base, variants);
    ClassNameWith(base, SizeName(size.GetOr(Medium)));
    WhenClassName(sized, base + "--" + SizeName(size.GetOr(Medium)));
    ClassNameWith(base, "disabled");
    WhenClassName(disabled, base + "--disabled");
    ClassNameWith(base, "loading");
    WhenClassName(loading, base + "--loading");
    WhenClassName(className != "", className);
    assert AllClassNames([base]);
    var list := [base] + VariantClasses(base, variants);
    AllClassNamesAppend([base], VariantClasses(base, variants));
    AllClassNamesAppend(list, w1);
    AllClassNamesAppend(list + w1, w2);
    AllClassNamesAppend(list + w1 + w2, w3);
    AllClassNamesAppend(list + w1 + w2 + w3, w4);
  }

  /** The class attribute lists the base class first, then the truthy
      variants' classes in entry order, the size class, `--disabled` when
      disabled, `--loading` when loading, and the custom class last. */
  lemma ComponentClassesInOrder(base: string, variants: seq<(string, bool)>, size: Option<ComponentSize>,
                                disabled: bool, loading: bool, className: string)
    requires base != "" && ' ' !in base && ' ' !in className
    requires forall k :: 0 <= k < |variants| ==> ' ' !in variants[k].0
    ensures Words(Cn(ComponentClassList(base, variants, size, disabled, loading, className)))
         == ComponentClassList(base, variants, size, disabled, loading, className)
  {
    var all := ComponentClassList(base, variants, size, disabled, loading, className);
    ComponentClassNames(base, variants, size, disabled, loading, className);
    WordsOfCn(all);
    NonEmptyOfClassNames(all);
  }

  // ---------------------------------------------------------------------
  // CSS custom-property names
  // ---------------------------------------------------------------------

  /** Wrapping in a fixed prefix and suffix loses nothing. */
  lemma WrapInjective(prefix: string, x: string, y: string, suffix: string)
    requires prefix + x + suffix == prefix + y + suffix
    ensures x == y
  {
    var a := prefix + x + suffix;
    assert |x| == |y|;
    assert x == a[|prefix|..|prefix| + |x|];
  }

  /** `getColorToken`. */
  function GetColorToken(role: Role): string
  {
    "var(--md-sys-color-" + CamelToKebab(RoleName(role)) + ")"
  }

  /** Distinct roles name distinct custom properties. */
  lemma GetColorTokenInjective(a: Role, b: Role)
    ensures GetColorToken(a) == GetColorToken(b) ==> a == b
  {
    if GetColorToken(a) == GetColorToken(b) {
      WrapInjective("var(--md-sys-color-", CamelToKebab(RoleName(a)), CamelToKebab(RoleName(b)), ")");
      RoleCssNamesDistinct(a, b);
    }
  }

  datatype SpacingToken = Xs | Sm | Md | Lg | Xl | Xxl

  function SpacingName(token: SpacingToken): string
  {
    match token
    case Xs => "xs"
    case Sm => "sm"
    case Md => "md"
    case Lg => "lg"
    case Xl => "xl"
    case Xxl => "xxl"
  }

  /** `getSpacing`. */
  function GetSpacing(token: SpacingToken): string
  {
    "var(--md-sys-spacing-" + SpacingName(token) + ")"
  }

  lemma GetSpacingInjective(a: SpacingToken, b: SpacingToken)
    ensures GetSpacing(a) == GetSpacing(b) ==> a == b
  {
    if GetSpacing(a) == GetSpacing(b) {
      WrapInjective("var(--md-sys-spacing-", SpacingName(a), SpacingName(b), ")");
    }
  }

  type ElevationLevel = x: int | 0 <= x <= 5

  /** `getElevation`. */
  function GetElevation(level: ElevationLevel): string
  {
    "var(--md-sys-elevation-level" + NatToString(level) + ")"
  }

  /** The level appears as its single decimal digit. */
  lemma GetElevationDigit(level: ElevationLevel)
    ensures GetElevation(level) == "var(--md-sys-elevation-level" + [('0' as int + level) as char] + ")"
    ensures forall other: ElevationLevel :: GetElevation(other) == GetElevation(level) ==> other == level
  {
    forall other: ElevationLevel | GetElevation(other) == GetElevation(level)
      ensures other == level
    {
      WrapInjective("var(--md-sys-elevation-level", NatToString(other), NatToString(level), ")");
      assert NatToString(other)[0] == NatToString(level)[0];
    }
  }

  datatype ShapeToken = CornerNone | CornerExtraSmall | CornerSmall | CornerMedium | CornerLarge | CornerExtraLarge | CornerFull

  function ShapeName(token: ShapeToken): string
  {
    match token
    case CornerNone => "none"
    case CornerExtraSmall => "extra-small"
    case CornerSmall => "small"
    case CornerMedium => "medium"
    case CornerLarge => "large"
    case CornerExtraLarge => "extra-large"
    case CornerFull => "full"
  }

  /** `getShape`: `token.replace('_', '-')` rewrites the first underscore only. */
  function GetShape(token: ShapeToken): string
  {
    "var(--md-sys-shape-corner-" + ReplaceFirst(ShapeName(token), '_', '-') + ")"
  }

  /** No shape token contains an underscore, so the rewrite never fires and
      the property is named after the token itself. */
  lemma GetShapeUsesTokenName(token: ShapeToken)
    ensures GetShape(token) == "var(--md-sys-shape-corner-" + ShapeName(token) + ")"
  {
    assert '_' !in ShapeName(token);
  }

  datatype TypeRole = Display | Headline | Title | Body | Label

  function TypeRoleName(role: TypeRole): string
  {
    match role
    case Display => "display"
    case Headline => "headline"
    case Title => "title"
    case Body => "body"
    case Label => "label"
  }

  /** A `TypographyScale` such as `display-large`: a role and a size. */
  datatype TypographyScale = TypographyScale(role: TypeRole, size: ComponentSize)

  function ScaleName(scale: TypographyScale): string
  {
    TypeRoleName(scale.role) + "-" + SizeName(scale.size)
  }

  /** The five custom properties `getTypography` returns. */
  datatype TypographyStyle = TypographyStyle(fontFamily: string, fontSize: string, fontWeight: string,
                                             lineHeight: string, letterSpacing: string)

  /** `getTypography`: the first `-` of the scale becomes `_`, then the key is
      passed through `camelToKebab`. */
  function GetTypography(scale: TypographyScale): TypographyStyle
  {
    var key := CamelToKebab(ReplaceFirst(ScaleName(scale), '-', '_'));
    TypographyStyle(
      "var(--md-sys-typescale-" + key + "-font)",
      "var(--md-sys-typescale-" + key + "-size)",
      "var(--md-sys-typescale-" + key + "-weight)",
      "var(--md-sys-typescale-" + key + "-line-height)",
      "var(--md-sys-typescale-" + key + "-tracking)")
  }

  lemma ReplaceFirstAtJoin(a: string, b: string, from: char, to: char)
    requires from !in a
    ensures ReplaceFirst(a + [from] + b, from, to) == a + [to] + b
  {
    var s := a + [from] + b;
    assert s[|a|] == from;
    assert forall j :: 0 <= j < |a| ==> s[j] == a[j];
    assert IndexOf(s, from) == |a|;
    assert s[..|a|] == a && s[|a| + 1..] == b;
  }

  predicate NoUpper(s: string) { forall i :: 0 <= i < |s| ==> !IsUpper(s[i]) }

  lemma TypeRoleNameLower(role: TypeRole)
    ensures NoUpper(TypeRoleName(role)) && '-' !in TypeRoleName(role)
  {
    match role
    case Display =>
    case Headline =>
    case Title =>
    case Body =>
    case Label =>
  }

  lemma SizeNameLower(size: ComponentSize)
    ensures NoUpper(SizeName(size))
  {
    match size
    case Small =>
    case Medium =>
    case Large =>
  }

  /** The custom properties are keyed by the role and size joined with an
      underscore (for example `display_large`): only the first `-` was
      replaced, and `camelToKebab` leaves the lower-case key as it is. */
  lemma TypographyKey(scale: TypographyScale)
    ensures var key := TypeRoleName(scale.role) + "_" + SizeName(scale.size);
            GetTypography(scale) == TypographyStyle(
              "var(--md-sys-typescale-" + key + "-font)",
              "var(--md-sys-typescale-" + key + "-size)",
              "var(--md-sys-typescale-" + key + "-weight)",
              "var(--md-sys-typescale-" + key + "-line-height)",
              "var(--md-sys-typescale-" + key + "-tracking)")
  {
    var w := TypeRoleName(scale.role);
    var z := SizeName(scale.size);
    TypeRoleNameLower(scale.role);
    SizeNameLower(scale.size);
    ReplaceFirstAtJoin(w, z, '-', '_');
    var key := w + "_" + z;
    assert NoUpper(key) by {
      forall i | 0 <= i < |key| ensures !IsUpper(key[i]) {
        if i < |w| { assert key[i] == w[i]; }
        else if i > |w| { assert key[i] == z[i - |w| - 1]; }
      }
    }
    CamelToKebabKeepsLowerCase(key);
  }

  datatype MotionDuration =
      Short1 | Short2 | Short3 | Short4
    | Medium1 | Medium2 | Medium3 | Medium4
    | Long1 | Long2 | Long3 | Long4
    | ExtraLong1 | ExtraLong2 | ExtraLong3 | ExtraLong4

  function DurationName(d: MotionDuration): string
  {
    match d
    case Short1 => "short1"
    case Short2 => "short2"
    case Short3 => "short3"
    case Short4 => "short4"
    case Medium1 => "medium1"
    case Medium2 => "medium2"
    case Medium3 => "medium3"
    case Medium4 => "medium4"
    case Long1 => "long1"
    case Long2 => "long2"
    case Long3 => "long3"
    case Long4 => "long4"
    case ExtraLong1 => "extra-long1"
    case ExtraLong2 => "extra-long2"
    case ExtraLong3 => "extra-long3"
    case ExtraLong4 => "extra-long4"
  }

  datatype MotionEasing =
      Emphasized | EmphasizedDecelerate | EmphasizedAccelerate
    | Standard | StandardDecelerate | StandardAccelerate | Legacy

  function EasingName(e: MotionEasing): string
  {
    match e
    case Emphasized => "emphasized"
    case EmphasizedDecelerate => "emphasized-decelerate"
    case EmphasizedAccelerate => "emphasized-accelerate"
    case Standard => "standard"
    case StandardDecelerate => "standard-decelerate"
    case StandardAccelerate => "standard-accelerate"
    case Legacy => "legacy"
  }

  /** `getMotionDuration`, on any string (`createAnimation` may pass one). */
  function GetMotionDuration(duration: string): string
  {
    "var(--md-sys-motion-duration-" + ReplaceFirst(duration, '_', '-') + ")"
  }

  /** `getMotionEasing`, on any string. */
  function GetMotionEasing(easing: string): string
  {
    "var(--md-sys-motion-easing-" + ReplaceFirst(easing, '_', '-') + ")"
  }

  /** The duration part of `createAnimation`. */
  function DurationValue(duration: string): string
  {
    if Contains(duration, "ms") then duration else GetMotionDuration(duration)
  }

  /** The easing part of `createAnimation`. */
  function EasingValue(easing: string): string
  {
    if Contains(easing, "cubic-bezier") then easing else GetMotionEasing(easing)
  }

  /** `createAnimation`, with its defaults: a duration containing "ms" and an
      easing containing "cubic-bezier" are used as they are, anything else
      goes through the token lookup. */
  function CreateAnimation(name: string, duration: string := "medium2", easing: string := "standard",
                           delay: string := "0s", fillMode: string := "both"): string
  {
    name + " " + DurationValue(duration) + " " + EasingValue(easing) + " " + delay + " " + fillMode
  }

  /** Every character of a contained string occurs in the containing one. */
  lemma {:induction false} ContainedCharsOccur(s: string, sub: string)
    requires Contains(s, sub)
    ensures forall k :: 0 <= k < |sub| ==> sub[k] in s
    decreases |s|
  {
    if s[..|sub|] != sub {
      ContainedCharsOccur(s[1..], sub);
      assert forall c :: c in s[1..] ==> c in s;
    } else {
      assert forall k :: 0 <= k < |sub| ==> sub[k] == s[k];
    }
  }

  lemma LacksMs(s: string)
    requires 'm' !in s || 's' !in s
    ensures !Contains(s, "ms")
  {
    if Contains(s, "ms") {
      assert "ms"[0] == 'm' && "ms"[1] == 's';
      ContainedCharsOccur(s, "ms");
    }
  }

  lemma LacksCubicBezier(s: string)
    requires 'b' !in s
    ensures !Contains(s, "cubic-bezier")
  {
    if Contains(s, "cubic-bezier") {
      assert "cubic-bezier"[2] == 'b';
      ContainedCharsOccur(s, "cubic-bezier");
    }
  }

  /** A declared duration has no underscore and never contains "ms" (each
      lacks an 'm' or an 's'), so it is looked up under its own name. */
  lemma DeclaredDuration(d: MotionDuration)
    ensures DurationValue(DurationName(d)) == "var(--md-sys-motion-duration-" + DurationName(d) + ")"
  {
    var n := DurationName(d);
    match d
    case Short1 | Short2 | Short3 | Short4 => assert '_' !in n && 'm' !in n; LacksMs(n);
    case Medium1 | Medium2 | Medium3 | Medium4 => assert '_' !in n && 's' !in n; LacksMs(n);
    case Long1 | Long2 | Long3 | Long4 => assert '_' !in n && 'm' !in n; LacksMs(n);
    case ExtraLong1 | ExtraLong2 | ExtraLong3 | ExtraLong4 => assert '_' !in n && 'm' !in n; LacksMs(n);
  }

  /** A declared easing has no underscore and never contains "cubic-bezier"
      (none has a 'b'), so it is looked up under its own name. */
  lemma DeclaredEasing(e: MotionEasing)
    ensures EasingValue(EasingName(e)) == "var(--md-sys-motion-easing-" + EasingName(e) + ")"
  {
    var n := EasingName(e);
    assert '_' !in n && 'b' !in n;
    LacksCubicBezier(n);
  }

  /** Declared tokens always take the `var(...)` form, named after the token. */
  lemma AnimationOfTokens(name: string, d: MotionDuration, e: MotionEasing, delay: string, fillMode: string)
    ensures CreateAnimation(name, DurationName(d), EasingName(e), delay, fillMode)
         == name + " " + ("var(--md-sys-motion-duration-" + DurationName(d) + ")")
            + " " + ("var(--md-sys-motion-easing-" + EasingName(e) + ")")
            + " " + delay + " " + fillMode
  {
    DeclaredDuration(d);
    DeclaredEasing(e);
  }

  /** Literal CSS values pass through untouched. */
  lemma AnimationOfLiterals(name: string, duration: string, easing: string, delay: string, fillMode: string)
    requires Contains(duration, "ms") && Contains(easing, "cubic-bezier")
    ensures CreateAnimation(name, duration, easing, delay, fillMode)
         == name + " " + duration + " " + easing + " " + delay + " " + fillMode
  {
  }

  // ---------------------------------------------------------------------
  // getCurrentTheme / getCurrentColors
  // ---------------------------------------------------------------------

  /** `getCurrentTheme`: the root `data-theme` attribute, or "light" when it
      is absent or empty. */
  function CurrentTheme(dataTheme: Option<string>): (theme: string)
    ensures theme != ""
    ensures dataTheme.Some? && dataTheme.value != "" ==> theme == dataTheme.value
  {
    if dataTheme.None? || dataTheme.value == "" then "light" else dataTheme.value
  }

  /** `md3Tokens.colors[getCurrentTheme()]`: undefined for an attribute
      other than "light" and "dark". */
  function GetCurrentColors(dataTheme: Option<string>): (colors: Option<ColorTable>)
    ensures colors.Some? <==> CurrentTheme(dataTheme) == ModeName(Light) || CurrentTheme(dataTheme) == ModeName(Dark)
    ensures colors.Some? ==> colors.value == LightColors || colors.value == DarkColors
  {
    var theme := CurrentTheme(dataTheme);
    if theme == "light" then Some(Md3Colors(Light))
    else if theme == "dark" then Some(Md3Colors(Dark))
    else None
  }

  /** Whatever the provider writes into `data-theme` selects that mode's
      table; a missing or empty attribute selects the light one. */
  lemma CurrentColorsOfMode(mode: Mode)
    ensures GetCurrentColors(Some(ModeName(mode))) == Some(Md3Colors(mode))
    ensures GetCurrentColors(None) == Some(LightColors) && GetCurrentColors(Some("")) == Some(LightColors)
  {
  }
}
