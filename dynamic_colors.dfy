/** lib/theme/dynamic-colors.ts: the tone-based contrast engine, the
    conversion of colour-library schemes into colour records, the assembly
    of a generated theme and its application to CSS custom properties.
    The colour library itself (`argbFromHex`, `Hct`,
    `themeFromSourceColor`) is a parameter of type ColorLibrary. */
module DynamicColors {
  import opened Wrappers
  import opened Text
  import opened Tokens
  import opened Records
  import ThemeUtils

  // ---------------------------------------------------------------------
  // The colour library
  // ---------------------------------------------------------------------

  /** An HCT tone: 0 is black, 100 is white. */
  type Tone = t: real | 0.0 <= t <= 100.0

  /** An ARGB colour as `Hct.toInt` returns it: an unsigned 32-bit value. */
  type Argb = n: int | 0 <= n < 0x1_0000_0000

  datatype Hct = Hct(hue: real, chroma: real, tone: Tone)

  /** A custom colour as `themeFromSourceColor` receives it. */
  datatype LibCustomColor = LibCustomColor(name: string, value: int, blend: bool)

  /** The four colours of one mode of a custom colour, as hex strings. */
  datatype ColorGroup = ColorGroup(color: string, onColor: string, colorContainer: string, onColorContainer: string)

  /** The light and dark groups the library derives for one custom colour. */
  datatype LibCustomColorGroup = LibCustomColorGroup(light: ColorGroup, dark: ColorGroup)

  /** What the code reads from the result of `themeFromSourceColor`: for
      each scheme, the hex string of every role the scheme object has, and
      the custom colour groups in library order. */
  datatype LibTheme = LibTheme(lightScheme: map<Role, string>, darkScheme: map<Role, string>,
                               customColors: seq<LibCustomColorGroup>)

  /** `argbFromHex` (None where it throws), `Hct.fromInt`,
      `Hct.from(hue, chroma, tone).toInt()` and `themeFromSourceColor`. */
  datatype ColorLibrary = ColorLibrary(
    argbFromHex: string -> Option<int>,
    hctFromInt: int -> Hct,
    argbFromHct: (real, real, Tone) -> Argb,
    themeFromSourceColor: (int, seq<LibCustomColor>) -> LibTheme)

  /** `Hct.fromInt(argbFromHex(hex))`, None where `argbFromHex` throws. */
  function HctOfHex(lib: ColorLibrary, hex: string): Option<Hct>
  {
    match lib.argbFromHex(hex)
    case None => None
    case Some(argb) => Some(lib.hctFromInt(argb))
  }

  // ---------------------------------------------------------------------
  // getContrastRatio: the tone approximation
  // ---------------------------------------------------------------------

  /** `(lighter + 5) / (darker + 5)` of two tones. This is not the WCAG
      ratio, but it shares its range: from 1 for equal tones up to 21 for
      black against white. */
  function ToneRatio(tone1: Tone, tone2: Tone): (ratio: real)
    ensures 1.0 <= ratio <= 21.0
    ensures ratio == 1.0 <==> tone1 == tone2
  {
    var lighter := ThemeUtils.Max(tone1, tone2);
    var darker := ThemeUtils.Min(tone1, tone2);
    var ratio := (lighter + 5.0) / (darker + 5.0);
    assert ratio * (darker + 5.0) == lighter + 5.0;
    ThemeUtils.QuotientBounds(lighter + 5.0, darker + 5.0, ratio);
    ratio
  }

  /** `getContrastRatio` of dynamic-colors.ts: the tone ratio, and 1 when
      either colour fails to parse (the `catch` branch). */
  function ToneContrastRatio(lib: ColorLibrary, color1: string, color2: string): (ratio: real)
    ensures 1.0 <= ratio <= 21.0
    ensures HctOfHex(lib, color1).None? || HctOfHex(lib, color2).None? ==> ratio == 1.0
    ensures HctOfHex(lib, color1).Some? && HctOfHex(lib, color2).Some? ==>
              (ratio == 1.0 <==> HctOfHex(lib, color1).value.tone == HctOfHex(lib, color2).value.tone)
  {
    match (HctOfHex(lib, color1), HctOfHex(lib, color2))
    case (Some(hct1), Some(hct2)) => ToneRatio(hct1.tone, hct2.tone)
    case _ => 1.0
  }

  lemma ToneContrastRatioSymmetric(lib: ColorLibrary, color1: string, color2: string)
    ensures ToneContrastRatio(lib, color1, color2) == ToneContrastRatio(lib, color2, color1)
  {
  }

  // ---------------------------------------------------------------------
  // ensureContrast
  // ---------------------------------------------------------------------

  /** `padStart(width, c)`. */
  function PadStart(s: string, width: nat, c: char): (r: string)
    ensures |r| == if |s| < width then width else |s|
    ensures AllLowerHexDigits(s) && IsLowerHexDigit(c) ==> AllLowerHexDigits(r)
  {
    if |s| < width then seq(width - |s|, _ => c) + s else s
  }

  lemma Pow16Eight()
    ensures ThemeUtils.Pow16(8) == 0x1_0000_0000
  {
    ThemeUtils.Pow16Six();
    assert ThemeUtils.Pow16(7) == 16 * ThemeUtils.Pow16(6);
  }

  /** A number below 16^k prints with at most k hex digits. */
  lemma {:induction false} HexStringLength(n: nat, k: nat)
    requires 1 <= k && n < ThemeUtils.Pow16(k)
    ensures |ThemeUtils.ToHexString(n)| <= k
  {
    if n >= 16 {
      assert ThemeUtils.Pow16(1) == 16;
      assert k >= 2;
      var q := n / 16;
      assert 16 * q <= n < 16 * ThemeUtils.Pow16(k - 1);
      HexStringLength(q, k - 1);
    }
  }

  /** `#${argb.toString(16).padStart(8, '0').substring(2)}`: the alpha
      digits are dropped, leaving a canonical six-digit colour. */
  function HexOfArgb(argb: Argb): (hex: string)
    ensures IsCanonicalHex(hex)
  {
    Pow16Eight();
    HexStringLength(argb, 8);
    var padded := PadStart(ThemeUtils.ToHexString(argb), 8, '0');
    "#" + padded[2..]
  }

  /** The red, green and blue channels of an ARGB value: its low 24 bits. */
  function ArgbChannels(argb: Argb): (c: ThemeUtils.Rgb)
    ensures ThemeUtils.IsByte(c.r) && ThemeUtils.IsByte(c.g) && ThemeUtils.IsByte(c.b)
    ensures argb % 0x100_0000 == c.r * 0x1_0000 + c.g * 0x100 + c.b
  {
    var a1 := argb / 0x100;
    var a2 := a1 / 0x100;
    var r, g, b := a2 % 0x100, a1 % 0x100, argb % 0x100;
    DivMod256(argb, a1, b);
    DivMod256(a1, a2, g);
    DivMod65536(argb, a2, g * 0x100 + b);
    DivMod256(a2, a2 / 0x100, r);
    DivMod16777216(argb, a2 / 0x100, r * 0x1_0000 + g * 0x100 + b);
    ThemeUtils.Rgb(r, g, b)
  }

  lemma DivMod256(x: int, q: int, d: int)
    requires x == 0x100 * q + d && 0 <= d < 0x100
    ensures x / 0x100 == q && x % 0x100 == d
  {
  }

  lemma DivMod16777216(x: int, q: int, d: int)
    requires x == 0x100_0000 * q + d && 0 <= d < 0x100_0000
    ensures x / 0x100_0000 == q && x % 0x100_0000 == d
  {
  }

  lemma DivMod65536(x: int, q: int, d: int)
    requires x == 0x1_0000 * q + d && 0 <= d < 0x1_0000
    ensures x / 0x1_0000 == q && x % 0x1_0000 == d
  {
  }

  lemma {:induction false} DigitsOfZero(k: nat)
    ensures ThemeUtils.Digits(0, k) == seq(k, _ => '0')
  {
    if k > 0 {
      DigitsOfZero(k - 1);
    }
  }

  /** `toString(16).padStart(k, '0')` of a number below 16^k is its k
      lowest hex digits. */
  lemma {:induction false} PaddedHexString(n: nat, k: nat)
    requires 1 <= k && n < ThemeUtils.Pow16(k)
    ensures PadStart(ThemeUtils.ToHexString(n), k, '0') == ThemeUtils.Digits(n, k)
  {
    HexStringLength(n, k);
    var t := ThemeUtils.ToHexString(n);
    if n < 16 {
      ThemeUtils.DivMod16(n, 0, n);
      DigitsOfZero(k - 1);
      assert ThemeUtils.Digits(n, k) == ThemeUtils.Digits(0, k - 1) + [HexChar(n)];
    } else {
      assert ThemeUtils.Pow16(1) == 16;
      assert k >= 2;
      var q := n / 16;
      assert 16 * q <= n < 16 * ThemeUtils.Pow16(k - 1);
      PaddedHexString(q, k - 1);
      HexStringLength(q, k - 1);
      var tq := ThemeUtils.ToHexString(q);
      assert t == tq + [HexChar(n % 16)];
      assert seq(k - |t|, _ => '0') == seq(k - 1 - |tq|, _ => '0');
      assert ThemeUtils.Digits(n, k) == ThemeUtils.Digits(q, k - 1) + [HexChar(n % 16)];
    }
  }

  /** The eight hex digits of an ARGB value: two for alpha, then two for
      each of red, green and blue. */
  lemma ArgbDigits(argb: Argb)
    ensures var c := ArgbChannels(argb);
            ThemeUtils.Digits(argb, 8)[2..] == ThemeUtils.ByteHex(c.r) + ThemeUtils.ByteHex(c.g) + ThemeUtils.ByteHex(c.b)
  {
    var c := ArgbChannels(argb);
    var a1 := argb / 0x100;
    var a2 := a1 / 0x100;
    DivMod256(argb, a1, c.b);
    DivMod256(a1, a2, c.g);
    DivMod256(a2, a2 / 0x100, c.r);
    ThemeUtils.DigitsSplit(a1, c.b, 6, argb);
    ThemeUtils.DigitsSplit(a2, c.g, 4, a1);
    ThemeUtils.DigitsSplit(a2 / 0x100, c.r, 2, a2);
    ThemeUtils.ByteDigits(c.r);
    ThemeUtils.ByteDigits(c.g);
    ThemeUtils.ByteDigits(c.b);
    var tail := ThemeUtils.ByteHex(c.r) + ThemeUtils.ByteHex(c.g) + ThemeUtils.ByteHex(c.b);
    assert ThemeUtils.Digits(argb, 8) == ThemeUtils.Digits(a2 / 0x100, 2) + tail;
  }

  /** The six digits `HexOfArgb` keeps are the colour's low 24 bits: it is
      `rgbToHex` of the red, green and blue channels. */
  lemma HexOfArgbChannels(argb: Argb)
    ensures var c := ArgbChannels(argb); HexOfArgb(argb) == ThemeUtils.RgbToHex(c.r, c.g, c.b)
  {
    Pow16Eight();
    PaddedHexString(argb, 8);
    ArgbDigits(argb);
  }

  /** So parsing the printed colour gives back exactly those channels. */
  lemma HexOfArgbParses(argb: Argb)
    ensures ThemeUtils.HexToRgb(HexOfArgb(argb)) == Some(ArgbChannels(argb))
  {
    var c := ArgbChannels(argb);
    HexOfArgbChannels(argb);
    ThemeUtils.HexToRgbInvertsRgbToHex(c.r, c.g, c.b);
  }

  /** The return value of `ensureContrast`, or the exception it lets escape. */
  datatype Outcome = Returned(color: string) | Threw

  /** Black on a light background, white on a dark one. */
  function Fallback(backgroundTone: Tone): (hex: string)
    ensures IsCanonicalHex(hex)
    ensures hex == "#000000" <==> backgroundTone > 50.0
    ensures hex == "#ffffff" <==> backgroundTone <= 50.0
  {
    if backgroundTone > 50.0 then "#000000" else "#ffffff"
  }

  /** The tone the loop tries after k steps: `step` is -1 when the
      background tone exceeds 50 and +1 otherwise. */
  function TriedTone(start: Tone, backgroundTone: Tone, k: nat): real
  {
    if backgroundTone > 50.0 then start - k as real else start + k as real
  }

  predicate InToneRange(t: real) { 0.0 <= t <= 100.0 }

  /** The loop condition fails after at most 101 steps. */
  lemma AtMostOneHundredOneTries(start: Tone, backgroundTone: Tone, k: nat)
    requires InToneRange(TriedTone(start, backgroundTone, k))
    ensures k <= 100
  {
  }

  /** The colour `Hct.from(hue, chroma, tone)` printed as lines 257 and 262 do. */
  function Candidate(lib: ColorLibrary, fg: Hct, tone: Tone): (hex: string)
    ensures IsCanonicalHex(hex)
  {
    HexOfArgb(lib.argbFromHct(fg.hue, fg.chroma, tone))
  }

  /** Each candidate is the colour the library produced: it parses back to
      that colour's red, green and blue channels. */
  lemma CandidateChannels(lib: ColorLibrary, fg: Hct, tone: Tone)
    ensures ThemeUtils.HexToRgb(Candidate(lib, fg, tone)) == Some(ArgbChannels(lib.argbFromHct(fg.hue, fg.chroma, tone)))
  {
    HexOfArgbParses(lib.argbFromHct(fg.hue, fg.chroma, tone));
  }

  /** The `while` loop of `ensureContrast` from step k on: the first tried
      colour that reaches the target, or the fallback once the tone leaves
      [0, 100]. */
  function Search(lib: ColorLibrary, fg: Hct, background: string, targetRatio: real,
                  backgroundTone: Tone, k: nat): (hex: string)
    ensures IsCanonicalHex(hex)
    decreases 101 - k
  {
    var tone := TriedTone(fg.tone, backgroundTone, k);
    if !InToneRange(tone) then Fallback(backgroundTone)
    else if ToneContrastRatio(lib, Candidate(lib, fg, tone), background) >= targetRatio then
      Candidate(lib, fg, tone)
    else
      Search(lib, fg, background, targetRatio, backgroundTone, k + 1)
  }

  /** `ensureContrast(foreground, background, targetRatio)`. An
      unparseable background throws inside the `try` block and again in
      the `catch` block, which parses it a second time. */
  function EnsureContrastResult(lib: ColorLibrary, foreground: string, background: string,
                                targetRatio: real): (r: Outcome)
    ensures ToneContrastRatio(lib, foreground, background) >= targetRatio ==> r == Returned(foreground)
    ensures r == Threw <==> HctOfHex(lib, background).None? && targetRatio > 1.0
    ensures r.Returned? && r.color != foreground ==> IsCanonicalHex(r.color)
  {
    if ToneContrastRatio(lib, foreground, background) >= targetRatio then Returned(foreground)
    else match HctOfHex(lib, background)
      case None => Threw
      case Some(bg) =>
        match HctOfHex(lib, foreground)
        case None => Returned(Fallback(bg.tone))
        case Some(fg) => Returned(Search(lib, fg, background, targetRatio, bg.tone, 0))
  }

  method EnsureContrast(lib: ColorLibrary, foreground: string, background: string,
                        targetRatio: real := 4.5) returns (r: Outcome)
    ensures r == EnsureContrastResult(lib, foreground, background, targetRatio)
  {
    var currentRatio := ToneContrastRatio(lib, foreground, background);
    if currentRatio >= targetRatio {
      return Returned(foreground);
    }
    var bgHct := HctOfHex(lib, background);
    if bgHct.None? {
      return Threw;
    }
    var fgHct := HctOfHex(lib, foreground);
    if fgHct.None? {
      return Returned(Fallback(bgHct.value.tone));
    }
    var fg := fgHct.value;
    var bgTone := bgHct.value.tone;
    var adjustedTone: real := fg.tone;
    var step: real := if bgTone > 50.0 then -1.0 else 1.0;
    ghost var k: nat := 0;
    while 0.0 <= adjustedTone && adjustedTone <= 100.0
      invariant adjustedTone == TriedTone(fg.tone, bgTone, k)
      invariant Search(lib, fg, background, targetRatio, bgTone, k) == Search(lib, fg, background, targetRatio, bgTone, 0)
      decreases 101 - k
    {
      var adjustedColor := lib.argbFromHct(fg.hue, fg.chroma, adjustedTone);
      var newRatio := ToneContrastRatio(lib, HexOfArgb(adjustedColor), background);
      if newRatio >= targetRatio {
        return Returned(HexOfArgb(adjustedColor));
      }
      adjustedTone := adjustedTone + step;
      k := k + 1;
    }
    return Returned(Fallback(bgTone));
  }

  /** Whatever the search returns either reaches the target or is the
      black/white fallback. */
  lemma {:induction false} SearchMeetsTargetOrFallsBack(lib: ColorLibrary, fg: Hct, background: string,
                                                       targetRatio: real, backgroundTone: Tone, k: nat)
    ensures var hex := Search(lib, fg, background, targetRatio, backgroundTone, k);
            hex == Fallback(backgroundTone) || ToneContrastRatio(lib, hex, background) >= targetRatio
    decreases 101 - k
  {
    var tone := TriedTone(fg.tone, backgroundTone, k);
    if InToneRange(tone) && ToneContrastRatio(lib, Candidate(lib, fg, tone), background) < targetRatio {
      SearchMeetsTargetOrFallsBack(lib, fg, background, targetRatio, backgroundTone, k + 1);
    }
  }

  /** The search returns the first tried tone that reaches the target. */
  lemma {:induction false} SearchFindsFirst(lib: ColorLibrary, fg: Hct, background: string,
                                            targetRatio: real, backgroundTone: Tone, k: nat, j: nat)
    requires k <= j
    requires forall i :: k <= i < j ==>
               InToneRange(TriedTone(fg.tone, backgroundTone, i)) &&
               ToneContrastRatio(lib, Candidate(lib, fg, TriedTone(fg.tone, backgroundTone, i)), background) < targetRatio
    requires InToneRange(TriedTone(fg.tone, backgroundTone, j))
    requires ToneContrastRatio(lib, Candidate(lib, fg, TriedTone(fg.tone, backgroundTone, j)), background) >= targetRatio
    ensures Search(lib, fg, background, targetRatio, backgroundTone, k) == Candidate(lib, fg, TriedTone(fg.tone, backgroundTone, j))
    decreases j - k
  {
    if k < j {
      assert InToneRange(TriedTone(fg.tone, backgroundTone, k));
      SearchFindsFirst(lib, fg, background, targetRatio, backgroundTone, k + 1, j);
    }
  }

  /** When no tried tone reaches the target, the search ends in the fallback. */
  lemma {:induction false} SearchExhausted(lib: ColorLibrary, fg: Hct, background: string,
                                           targetRatio: real, backgroundTone: Tone, k: nat)
    requires forall i: nat :: k <= i && InToneRange(TriedTone(fg.tone, backgroundTone, i)) ==>
               ToneContrastRatio(lib, Candidate(lib, fg, TriedTone(fg.tone, backgroundTone, i)), background) < targetRatio
    ensures Search(lib, fg, background, targetRatio, backgroundTone, k) == Fallback(backgroundTone)
    decreases 101 - k
  {
    if InToneRange(TriedTone(fg.tone, backgroundTone, k)) {
      SearchExhausted(lib, fg, background, targetRatio, backgroundTone, k + 1);
    }
  }

  /** The loop runs at most 101 times: from step 101 on the tone is out of
      range and the search has already fallen back to black or white. */
  lemma SearchStopsAfterOneHundredOneTries(lib: ColorLibrary, fg: Hct, background: string,
                                           targetRatio: real, backgroundTone: Tone, k: nat)
    requires k > 100
    ensures Search(lib, fg, background, targetRatio, backgroundTone, k) == Fallback(backgroundTone)
  {
    if InToneRange(TriedTone(fg.tone, backgroundTone, k)) {
      AtMostOneHundredOneTries(fg.tone, backgroundTone, k);
    }
  }

  /** A returned colour other than black or white reaches the target. */
  lemma EnsureContrastMeetsTarget(lib: ColorLibrary, foreground: string, background: string, targetRatio: real)
    requires EnsureContrastResult(lib, foreground, background, targetRatio).Returned?
    requires EnsureContrastResult(lib, foreground, background, targetRatio).color !in {"#000000", "#ffffff"}
    ensures ToneContrastRatio(lib, EnsureContrastResult(lib, foreground, background, targetRatio).color, background) >= targetRatio
  {
    if ToneContrastRatio(lib, foreground, background) < targetRatio {
      var bg := HctOfHex(lib, background).value;
      var fg := HctOfHex(lib, foreground).value;
      SearchMeetsTargetOrFallsBack(lib, fg, background, targetRatio, bg.tone, 0);
    }
  }

  /** Applying `ensureContrast` to its own result changes nothing, unless
      that result is the black/white fallback. */
  lemma EnsureContrastIdempotent(lib: ColorLibrary, foreground: string, background: string, targetRatio: real)
    requires EnsureContrastResult(lib, foreground, background, targetRatio).Returned?
    requires EnsureContrastResult(lib, foreground, background, targetRatio).color !in {"#000000", "#ffffff"}
    ensures var r := EnsureContrastResult(lib, foreground, background, targetRatio);
            EnsureContrastResult(lib, r.color, background, targetRatio) == r
  {
    EnsureContrastMeetsTarget(lib, foreground, background, targetRatio);
  }

  /** When the foreground does not parse, the result is the fallback for
      the background (the `catch` branch). */
  lemma UnparsedForegroundFallsBack(lib: ColorLibrary, foreground: string, background: string, targetRatio: real)
    requires HctOfHex(lib, foreground).None? && HctOfHex(lib, background).Some? && targetRatio > 1.0
    ensures EnsureContrastResult(lib, foreground, background, targetRatio)
            == Returned(Fallback(HctOfHex(lib, background).value.tone))
  {
  }

  // ---------------------------------------------------------------------
  // extractSchemeColors
  // ---------------------------------------------------------------------

  /** How `extractSchemeColors` obtains a role: by plain member access
      (the access throws when the scheme lacks the role), with `?.` and a
      surface fallback (the seven surface levels), with `?.` and a black
      fallback (shadow and scrim), or as a copy of primary (surfaceTint). */
  datatype Extraction = Required | SurfaceDefault | BlackDefault | CopyOfPrimary

  function ExtractionOf(r: Role): Extraction
  {
    match r
    case SurfaceDim | SurfaceBright | SurfaceContainerLowest | SurfaceContainerLow
       | SurfaceContainer | SurfaceContainerHigh | SurfaceContainerHighest => SurfaceDefault
    case Shadow | Scrim => BlackDefault
    case SurfaceTint => CopyOfPrimary
    case _ => Required
  }

  predicate HasRequiredRoles(scheme: map<Role, string>)
  {
    forall r: Role :: ExtractionOf(r) == Required ==> r in scheme
  }

  /** `scheme.role?.toHex() || fallback`: an absent role or an empty hex
      string gives the fallback. */
  function OrElse(scheme: map<Role, string>, r: Role, fallback: string): (hex: string)
    ensures r !in scheme ==> hex == fallback
    ensures r in scheme && scheme[r] != "" ==> hex == scheme[r]
  {
    if r in scheme && scheme[r] != "" then scheme[r] else fallback
  }

  function SchemeValue(scheme: map<Role, string>, r: Role): string
    requires HasRequiredRoles(scheme)
  {
    assert ExtractionOf(Surface) == Required && ExtractionOf(Primary) == Required;
    match ExtractionOf(r)
    case SurfaceDefault => OrElse(scheme, r, scheme[Surface])
    case BlackDefault => OrElse(scheme, r, "#000000")
    case CopyOfPrimary => scheme[Primary]
    case Required => scheme[r]
  }

  /** `extractSchemeColors(scheme)`: a record with every one of the 37
      roles, or None where a required role is absent. */
  function ExtractSchemeColors(scheme: map<Role, string>): (colors: Option<ColorTable>)
    ensures colors.Some? <==> HasRequiredRoles(scheme)
    ensures colors.Some? ==> Complete(colors.value)
  {
    if HasRequiredRoles(scheme) then
      Some(map r: Role | true :: SchemeValue(scheme, r))
    else
      None
  }

  /** A required role is copied from the scheme. */
  lemma ExtractedRequiredRole(scheme: map<Role, string>, r: Role)
    requires ExtractSchemeColors(scheme).Some? && ExtractionOf(r) == Required
    ensures ExtractSchemeColors(scheme).value[r] == scheme[r]
  {
  }

  /** A surface level the scheme lacks (or leaves empty) is the surface colour. */
  lemma ExtractedSurfaceLevel(scheme: map<Role, string>, r: Role)
    requires ExtractSchemeColors(scheme).Some? && ExtractionOf(r) == SurfaceDefault
    ensures ExtractSchemeColors(scheme).value[r] == OrElse(scheme, r, scheme[Surface])
  {
  }

  /** Shadow and scrim default to black; surfaceTint is always primary. */
  lemma ExtractedShadowScrimTint(scheme: map<Role, string>)
    requires ExtractSchemeColors(scheme).Some?
    ensures var colors := ExtractSchemeColors(scheme).value;
            colors[Shadow] == OrElse(scheme, Shadow, "#000000") && colors[Scrim] == OrElse(scheme, Scrim, "#000000")
            && colors[SurfaceTint] == scheme[Primary]
  {
  }

  /** A scheme without the optional roles yields the same shadow, scrim and
      surface tint as the static tables. */
  lemma ExtractedFallbacksMatchTables(scheme: map<Role, string>, mode: Mode)
    requires ExtractSchemeColors(scheme).Some?
    requires Shadow !in scheme && Scrim !in scheme
    requires scheme[Primary] == Md3Colors(mode)[Primary]
    ensures var colors := ExtractSchemeColors(scheme).value;
            colors[Shadow] == Md3Colors(mode)[Shadow] && colors[Scrim] == Md3Colors(mode)[Scrim]
            && colors[SurfaceTint] == Md3Colors(mode)[SurfaceTint]
  {
    ExtractedShadowScrimTint(scheme);
    ShadowAndScrimBlack();
    SurfaceTintIsPrimary();
  }

  // ---------------------------------------------------------------------
  // generateDynamicTheme
  // ---------------------------------------------------------------------

  datatype CustomColorOption = CustomColorOption(name: string, value: string, blend: Option<bool>)

  /** `DynamicColorOptions`; an absent field is None. */
  datatype DynamicColorOptions = DynamicColorOptions(
    sourceColor: Option<string>,
    customColors: Option<seq<CustomColorOption>>,
    contrast: Option<real>,
    isDark: Option<bool>)

  /** One entry of `GeneratedTheme.customColors`: a string record per mode. */
  datatype CustomColorScheme = CustomColorScheme(light: Record<string>, dark: Record<string>)

  /** The object literal `{ color, onColor, colorContainer, onColorContainer }`
      of lines 78-89. */
  function GroupRecord(g: ColorGroup): (r: Record<string>)
    ensures |r| == 4
  {
    [("color", g.color), ("onColor", g.onColor), ("colorContainer", g.colorContainer),
     ("onColorContainer", g.onColorContainer)]
  }

  function SchemeOf(group: LibCustomColorGroup): CustomColorScheme
  {
    CustomColorScheme(GroupRecord(group.light), GroupRecord(group.dark))
  }

  /** `GeneratedTheme`; the custom colours keep JavaScript's insertion order. */
  datatype GeneratedTheme = GeneratedTheme(light: ColorTable, dark: ColorTable,
                                           customColors: Record<CustomColorScheme>)

  const DefaultSourceColor := "#6750a4"

  /** The `customColors.map(...)` argument of `themeFromSourceColor`:
      each value parsed, `blend` defaulting to true; None where a value
      does not parse. */
  function LibCustomColors(lib: ColorLibrary, customColors: seq<CustomColorOption>): (r: Option<seq<LibCustomColor>>)
    ensures r.Some? <==> forall i :: 0 <= i < |customColors| ==> lib.argbFromHex(customColors[i].value).Some?
    ensures r.Some? ==> |r.value| == |customColors|
    ensures r.Some? ==> forall i :: 0 <= i < |customColors| ==>
              r.value[i] == LibCustomColor(customColors[i].name, lib.argbFromHex(customColors[i].value).value,
                                           customColors[i].blend.GetOr(true))
  {
    if customColors == [] then Some([])
    else
      var n := |customColors| - 1;
      var last := customColors[n];
      match (LibCustomColors(lib, customColors[..n]), lib.argbFromHex(last.value))
      case (Some(init), Some(argb)) => Some(init + [LibCustomColor(last.name, argb, last.blend.GetOr(true))])
      case _ => None
  }

  /** `customColors[index]?.name || \`custom${index}\``. */
  function ColorName(customColors: seq<CustomColorOption>, index: nat): (name: string)
    ensures name != []
    ensures index < |customColors| && customColors[index].name != "" ==> name == customColors[index].name
    ensures !(index < |customColors| && customColors[index].name != "") ==> name == "custom" + NatToString(index)
  {
    if index < |customColors| && customColors[index].name != "" then customColors[index].name
    else "custom" + NatToString(index)
  }

  /** `customColorsResult` after the `forEach` has visited `groups`. */
  function CustomColorRecord(customColors: seq<CustomColorOption>, groups: seq<LibCustomColorGroup>): Record<CustomColorScheme>
  {
    if groups == [] then []
    else
      var n := |groups| - 1;
      Put(CustomColorRecord(customColors, groups[..n]), ColorName(customColors, n), SchemeOf(groups[n]))
  }

  /** `generateDynamicTheme(options)`; None where the library or
      `extractSchemeColors` throws. */
  function DynamicTheme(lib: ColorLibrary, options: DynamicColorOptions): (theme: Option<GeneratedTheme>)
    ensures theme.Some? ==> Complete(theme.value.light) && Complete(theme.value.dark)
    ensures theme.Some? ==> UniqueKeys(theme.value.customColors)
  {
    var customColors := options.customColors.GetOr([]);
    var sourceColorArgb := lib.argbFromHex(options.sourceColor.GetOr(DefaultSourceColor));
    var libCustom := LibCustomColors(lib, customColors);
    if sourceColorArgb.None? || libCustom.None? then None
    else
      var libTheme := lib.themeFromSourceColor(sourceColorArgb.value, libCustom.value);
      var light := ExtractSchemeColors(libTheme.lightScheme);
      var dark := ExtractSchemeColors(libTheme.darkScheme);
      if light.None? || dark.None? then None
      else
        CustomColorRecordUnique(customColors, libTheme.customColors);
        Some(GeneratedTheme(light.value, dark.value, CustomColorRecord(customColors, libTheme.customColors)))
  }

  method GenerateDynamicTheme(lib: ColorLibrary, options: DynamicColorOptions) returns (theme: Option<GeneratedTheme>)
    ensures theme == DynamicTheme(lib, options)
  {
    var sourceColor := options.sourceColor.GetOr(DefaultSourceColor);
    var customColors := options.customColors.GetOr([]);
    var sourceColorArgb := lib.argbFromHex(sourceColor);
    if sourceColorArgb.None? {
      return None;
    }
    var libCustom := LibCustomColors(lib, customColors);
    if libCustom.None? {
      return None;
    }
    var libTheme := lib.themeFromSourceColor(sourceColorArgb.value, libCustom.value);
    var lightColors := ExtractSchemeColors(libTheme.lightScheme);
    var darkColors := ExtractSchemeColors(libTheme.darkScheme);
    if lightColors.None? || darkColors.None? {
      return None;
    }
    var customColorsResult: Record<CustomColorScheme> := [];
    var index := 0;
    while index < |libTheme.customColors|
      invariant index <= |libTheme.customColors|
      invariant customColorsResult == CustomColorRecord(customColors, libTheme.customColors[..index])
    {
      assert libTheme.customColors[..index + 1][..index] == libTheme.customColors[..index];
      var colorName := ColorName(customColors, index);
      customColorsResult := Put(customColorsResult, colorName, SchemeOf(libTheme.customColors[index]));
      index := index + 1;
    }
    assert libTheme.customColors[..index] == libTheme.customColors;
    return Some(GeneratedTheme(lightColors.value, darkColors.value, customColorsResult));
  }

  lemma {:induction false} CustomColorRecordUnique(customColors: seq<CustomColorOption>, groups: seq<LibCustomColorGroup>)
    ensures UniqueKeys(CustomColorRecord(customColors, groups))
  {
    if groups != [] {
      var n := |groups| - 1;
      CustomColorRecordUnique(customColors, groups[..n]);
      PutKeepsKeysUnique(CustomColorRecord(customColors, groups[..n]), ColorName(customColors, n), SchemeOf(groups[n]));
    }
  }

  /** The names the `forEach` computes for its first n visits. */
  function NamesUpTo(customColors: seq<CustomColorOption>, n: nat): (names: seq<string>)
    ensures |names| == n
    ensures forall i :: 0 <= i < n ==> names[i] == ColorName(customColors, i)
  {
    if n == 0 then [] else NamesUpTo(customColors, n - 1) + [ColorName(customColors, n - 1)]
  }

  /** The record's keys are exactly the names of the visited groups. */
  lemma {:induction false} CustomColorRecordKeys(customColors: seq<CustomColorOption>, groups: seq<LibCustomColorGroup>, name: string)
    ensures name in Keys(CustomColorRecord(customColors, groups)) <==> name in NamesUpTo(customColors, |groups|)
  {
    if groups != [] {
      var n := |groups| - 1;
      CustomColorRecordKeys(customColors, groups[..n], name);
    }
  }

  /** A later colour with the same name overwrites an earlier one: a name
      reads the group of its last occurrence. */
  lemma {:induction false} LastDuplicateWins(customColors: seq<CustomColorOption>, groups: seq<LibCustomColorGroup>, j: nat)
    requires j < |groups|
    requires forall k :: j < k < |groups| ==> ColorName(customColors, k) != ColorName(customColors, j)
    ensures Get(CustomColorRecord(customColors, groups), ColorName(customColors, j)) == Some(SchemeOf(groups[j]))
  {
    var n := |groups| - 1;
    var prefix := CustomColorRecord(customColors, groups[..n]);
    if j == n {
      GetPut(prefix, ColorName(customColors, n), SchemeOf(groups[n]), ColorName(customColors, j));
    } else {
      LastDuplicateWins(customColors, groups[..n], j);
      GetPut(prefix, ColorName(customColors, n), SchemeOf(groups[n]), ColorName(customColors, j));
    }
  }

  /** The result does not depend on `contrast` or `isDark`. */
  lemma DynamicThemeIgnoresContrastAndMode(lib: ColorLibrary, options: DynamicColorOptions,
                                           contrast: Option<real>, isDark: Option<bool>)
    ensures DynamicTheme(lib, options) == DynamicTheme(lib, options.(contrast := contrast, isDark := isDark))
  {
  }

  /** Without a source colour the theme is generated from `#6750a4`. */
  lemma DefaultSourceColorUsed(lib: ColorLibrary, options: DynamicColorOptions)
    requires options.sourceColor.None?
    ensures DynamicTheme(lib, options) == DynamicTheme(lib, options.(sourceColor := Some("#6750a4")))
  {
  }

  // ---------------------------------------------------------------------
  // applyDynamicTheme
  // ---------------------------------------------------------------------

  /** The inline style of the document element, as a table from custom
      property name to value. */
  class StyleDeclaration {
    var properties: map<string, string>

    constructor ()
      ensures properties == map[]
    {
      properties := map[];
    }

    /** `style.setProperty(name, value)`. */
    method SetProperty(name: string, value: string)
      modifies this
      ensures properties == old(properties)[name := value]
    {
      properties := properties[name := value];
    }
  }

  const SysColorPrefix := "--md-sys-color-"
  const CustomPrefix := "--md-custom-"

  /** `--md-sys-color-${camelToKebab(key)}`. */
  function SysColorProperty(r: Role): string
  {
    SysColorPrefix + ThemeUtils.CamelToKebab(RoleName(r))
  }

  /** `--md-custom-${colorName}-${camelToKebab(key)}`. */
  function CustomProperty(colorName: string, key: string): string
  {
    CustomPrefix + colorName + "-" + ThemeUtils.CamelToKebab(key)
  }

  function ModeColors(theme: GeneratedTheme, isDark: bool): ColorTable
  {
    if isDark then theme.dark else theme.light
  }

  function ModeRecord(scheme: CustomColorScheme, isDark: bool): Record<string>
  {
    if isDark then scheme.dark else scheme.light
  }

  /** One `setProperty` call: property name and value. */
  type Write = (string, string)

  /** The table after the given calls, in order. */
  function ApplyWrites(properties: map<string, string>, writes: seq<Write>): map<string, string>
  {
    if writes == [] then properties
    else
      var n := |writes| - 1;
      ApplyWrites(properties, writes[..n])[writes[n].0 := writes[n].1]
  }

  lemma ApplyWritesSnoc(properties: map<string, string>, writes: seq<Write>, w: Write)
    ensures ApplyWrites(properties, writes + [w]) == ApplyWrites(properties, writes)[w.0 := w.1]
  {
    assert (writes + [w])[..|writes|] == writes;
  }

  /** Running two batches of calls one after the other is running their
      concatenation. */
  lemma {:induction false} ApplyWritesAppend(properties: map<string, string>, first: seq<Write>, second: seq<Write>)
    ensures ApplyWrites(properties, first + second) == ApplyWrites(ApplyWrites(properties, first), second)
  {
    if second == [] {
      assert first + second == first;
    } else {
      var n := |second| - 1;
      var all := first + second;
      assert all[..|all| - 1] == first + second[..n];
      assert all[|all| - 1] == second[n];
      ApplyWritesAppend(properties, first, second[..n]);
    }
  }

  /** The calls of the first loop over the given roles (in the order of
      the colour record's keys, which is the order of AllRoles). */
  function RoleWrites(colors: ColorTable, roles: seq<Role>): (writes: seq<Write>)
    ensures |writes| <= |roles|
  {
    if roles == [] then []
    else
      var n := |roles| - 1;
      RoleWrites(colors, roles[..n]) + (if roles[n] in colors then [(SysColorProperty(roles[n]), colors[roles[n]])] else [])
  }

  /** The calls the inner loop makes for the entries of one mode of the
      custom colour `colorName`. */
  function EntriesWrites(colorName: string, entries: Record<string>): (writes: seq<Write>)
    ensures |writes| == |entries|
  {
    seq(|entries|, e requires 0 <= e < |entries| => (CustomProperty(colorName, entries[e].0), entries[e].1))
  }

  /** The calls the inner loop makes for one custom colour. */
  function EntryWrites(entry: (string, CustomColorScheme), isDark: bool): (writes: seq<Write>)
    ensures |writes| == |ModeRecord(entry.1, isDark)|
  {
    EntriesWrites(entry.0, ModeRecord(entry.1, isDark))
  }

  /** The calls of the nested loops, in record order. */
  function CustomWrites(customColors: Record<CustomColorScheme>, isDark: bool): seq<Write>
  {
    if customColors == [] then []
    else
      var n := |customColors| - 1;
      CustomWrites(customColors[..n], isDark) + EntryWrites(customColors[n], isDark)
  }

  lemma CustomWritesSnoc(customColors: Record<CustomColorScheme>, isDark: bool, j: nat)
    requires j < |customColors|
    ensures CustomWrites(customColors[..j + 1], isDark)
            == CustomWrites(customColors[..j], isDark) + EntryWrites(customColors[j], isDark)
  {
    assert customColors[..j + 1][..j] == customColors[..j];
  }

  /** Which custom colour and which of its entries a custom call writes. */
  lemma {:induction false} EntryOfCustomWrite(customColors: Record<CustomColorScheme>, isDark: bool, i: nat)
    returns (j: nat, e: nat)
    requires i < |CustomWrites(customColors, isDark)|
    ensures j < |customColors| && e < |ModeRecord(customColors[j].1, isDark)|
    ensures CustomWrites(customColors, isDark)[i] == EntryWrites(customColors[j], isDark)[e]
  {
    var n := |customColors| - 1;
    var init := CustomWrites(customColors[..n], isDark);
    if i < |init| {
      j, e := EntryOfCustomWrite(customColors[..n], isDark, i);
    } else {
      j, e := n, i - |init|;
    }
  }

  /** Where in the custom calls entry e of custom colour j is written. */
  lemma {:induction false} CustomWriteOfEntry(customColors: Record<CustomColorScheme>, isDark: bool, j: nat, e: nat)
    returns (i: nat)
    requires j < |customColors| && e < |ModeRecord(customColors[j].1, isDark)|
    ensures i < |CustomWrites(customColors, isDark)|
    ensures CustomWrites(customColors, isDark)[i] == EntryWrites(customColors[j], isDark)[e]
  {
    var n := |customColors| - 1;
    var init := CustomWrites(customColors[..n], isDark);
    if j == n {
      i := |init| + e;
    } else {
      i := CustomWriteOfEntry(customColors[..n], isDark, j, e);
    }
  }

  /** Every `setProperty` call of `applyDynamicTheme`, in order. */
  function ThemeWrites(theme: GeneratedTheme, isDark: bool): seq<Write>
  {
    RoleWrites(ModeColors(theme, isDark), AllRoles) + CustomWrites(theme.customColors, isDark)
  }

  /** `applyDynamicTheme(theme, isDark)` on the document element's style. */
  method ApplyDynamicTheme(style: StyleDeclaration, theme: GeneratedTheme, isDark: bool := false)
    modifies style
    ensures style.properties == ApplyWrites(old(style.properties), ThemeWrites(theme, isDark))
  {
    var colors := if isDark then theme.dark else theme.light;
    SetSysColorProperties(style, colors, AllRoles);
    SetAllCustomProperties(style, theme.customColors, isDark);
    ApplyWritesAppend(old(style.properties), RoleWrites(colors, AllRoles), CustomWrites(theme.customColors, isDark));
  }

  /** The first `forEach`: one `setProperty` per role of the record, in
      the order `roles` lists them. */
  method SetSysColorProperties(style: StyleDeclaration, colors: ColorTable, roles: seq<Role>)
    modifies style
    ensures style.properties == ApplyWrites(old(style.properties), RoleWrites(colors, roles))
  {
    ghost var written: seq<Write> := [];
    var i := 0;
    while i < |roles|
      invariant 0 <= i <= |roles|
      invariant written == RoleWrites(colors, roles[..i])
      invariant style.properties == ApplyWrites(old(style.properties), written)
    {
      assert roles[..i + 1][..i] == roles[..i];
      var key := roles[i];
      if key in colors {
        style.SetProperty(SysColorProperty(key), colors[key]);
        ApplyWritesSnoc(old(style.properties), written, (SysColorProperty(key), colors[key]));
        written := written + [(SysColorProperty(key), colors[key])];
      }
      i := i + 1;
    }
    assert roles[..i] == roles;
  }

  /** The second `forEach`: the inner loop once per custom colour, in
      record order. */
  method SetAllCustomProperties(style: StyleDeclaration, customColors: Record<CustomColorScheme>, isDark: bool)
    modifies style
    ensures style.properties == ApplyWrites(old(style.properties), CustomWrites(customColors, isDark))
  {
    assert customColors[..0] == [];
    var j := 0;
    while j < |customColors|
      invariant 0 <= j <= |customColors|
      invariant style.properties == ApplyWrites(old(style.properties), CustomWrites(customColors[..j], isDark))
    {
      var colorName := customColors[j].0;
      var colorScheme := customColors[j].1;
      var colorColors := if isDark then colorScheme.dark else colorScheme.light;
      SetCustomProperties(style, colorName, colorColors);
      ApplyWritesAppend(old(style.properties), CustomWrites(customColors[..j], isDark), EntryWrites(customColors[j], isDark));
      CustomWritesSnoc(customColors, isDark, j);
      j := j + 1;
    }
    assert customColors[..j] == customColors;
  }

  /** The inner `forEach`: one `setProperty` per entry of the record. */
  method SetCustomProperties(style: StyleDeclaration, colorName: string, entries: Record<string>)
    modifies style
    ensures style.properties == ApplyWrites(old(style.properties), EntriesWrites(colorName, entries))
  {
    ghost var writes := EntriesWrites(colorName, entries);
    var e := 0;
    while e < |entries|
      invariant 0 <= e <= |entries|
      invariant style.properties == ApplyWrites(old(style.properties), writes[..e])
    {
      var w := (CustomProperty(colorName, entries[e].0), entries[e].1);
      style.SetProperty(w.0, w.1);
      assert writes[..e + 1] == writes[..e] + [w];
      ApplyWritesSnoc(old(style.properties), writes[..e], w);
      e := e + 1;
    }
    assert writes[..e] == writes;
  }

  /** A property that every call writing it sets to the same value holds
      that value afterwards. */
  lemma {:induction false} AgreeingWrites(properties: map<string, string>, writes: seq<Write>,
                                          name: string, value: string, at: nat)
    requires at < |writes| && writes[at].0 == name
    requires forall i :: 0 <= i < |writes| && writes[i].0 == name ==> writes[i].1 == value
    ensures name in ApplyWrites(properties, writes) && ApplyWrites(properties, writes)[name] == value
  {
    var n := |writes| - 1;
    if writes[n].0 != name {
      AgreeingWrites(properties, writes[..n], name, value, at);
    }
  }

  /** A property no call writes keeps its old value (or stays absent). */
  lemma {:induction false} UnwrittenKept(properties: map<string, string>, writes: seq<Write>, name: string)
    requires forall i :: 0 <= i < |writes| ==> writes[i].0 != name
    ensures name in ApplyWrites(properties, writes) <==> name in properties
    ensures name in properties ==> ApplyWrites(properties, writes)[name] == properties[name]
  {
    if writes != [] {
      UnwrittenKept(properties, writes[..|writes| - 1], name);
    }
  }

  lemma {:induction false} RoleOfWrite(colors: ColorTable, roles: seq<Role>, i: nat) returns (r: Role)
    requires i < |RoleWrites(colors, roles)|
    ensures r in colors && RoleWrites(colors, roles)[i] == (SysColorProperty(r), colors[r])
  {
    var n := |roles| - 1;
    if i < |RoleWrites(colors, roles[..n])| {
      r := RoleOfWrite(colors, roles[..n], i);
    } else {
      r := roles[n];
    }
  }

  lemma {:induction false} WriteOfRole(colors: ColorTable, roles: seq<Role>, r: Role) returns (i: nat)
    requires r in roles && r in colors
    ensures i < |RoleWrites(colors, roles)| && RoleWrites(colors, roles)[i] == (SysColorProperty(r), colors[r])
  {
    var n := |roles| - 1;
    if roles[n] == r {
      i := |RoleWrites(colors, roles[..n])|;
    } else {
      assert r in roles[..n];
      i := WriteOfRole(colors, roles[..n], r);
    }
  }

  /** Every property the theme writes starts with `--md-`; the sixth
      character tells the two families apart. */
  lemma PrefixFamily(prefix: string, tail: string, c: char)
    requires |prefix| > 5 && prefix[..5] == "--md-" && prefix[5] == c
    ensures |prefix + tail| > 5 && (prefix + tail)[..5] == "--md-" && (prefix + tail)[5] == c
  {
    assert (prefix + tail)[..5] == prefix[..5];
  }

  lemma SysColorPropertyFamily(r: Role)
    ensures |SysColorProperty(r)| > 5 && SysColorProperty(r)[..5] == "--md-" && SysColorProperty(r)[5] == 's'
  {
    PrefixFamily(SysColorPrefix, ThemeUtils.CamelToKebab(RoleName(r)), 's');
  }

  lemma CustomPropertyFamily(colorName: string, key: string)
    ensures |CustomProperty(colorName, key)| > 5 && CustomProperty(colorName, key)[..5] == "--md-"
    ensures CustomProperty(colorName, key)[5] == 'c'
  {
    var tail := colorName + "-" + ThemeUtils.CamelToKebab(key);
    assert CustomProperty(colorName, key) == CustomPrefix + tail;
    PrefixFamily(CustomPrefix, tail, 'c');
  }

  lemma SysColorPropertyInjective(a: Role, b: Role)
    requires SysColorProperty(a) == SysColorProperty(b)
    ensures a == b
  {
    var n := |SysColorPrefix|;
    assert SysColorProperty(a)[n..] == ThemeUtils.CamelToKebab(RoleName(a));
    assert SysColorProperty(b)[n..] == ThemeUtils.CamelToKebab(RoleName(b));
    ThemeUtils.RoleCssNamesDistinct(a, b);
  }

  /** `name-kebab` splits back into the name and the kebab form when the
      name has no hyphen. */
  lemma HyphenSplit(n1: string, k1: string, n2: string, k2: string)
    requires '-' !in n1 && '-' !in n2
    requires n1 + "-" + k1 == n2 + "-" + k2
    ensures n1 == n2 && k1 == k2
  {
    var t := n1 + "-" + k1;
    assert t[|n1|] == '-' && t[|n2|] == '-';
    assert |n1| == |n2|;
    assert n1 == t[..|n1|] && n2 == t[..|n2|];
    assert k1 == t[|n1| + 1..] && k2 == t[|n2| + 1..];
  }

  /** With hyphen-free colour names and camel-case keys, distinct
      (name, key) pairs give distinct custom properties. */
  lemma CustomPropertyInjective(n1: string, k1: string, n2: string, k2: string)
    requires '-' !in n1 && '-' !in n2
    requires ThemeUtils.IsCamelName(k1) && ThemeUtils.IsCamelName(k2)
    requires CustomProperty(n1, k1) == CustomProperty(n2, k2)
    ensures n1 == n2 && k1 == k2
  {
    var p := |CustomPrefix|;
    assert CustomProperty(n1, k1)[p..] == n1 + "-" + ThemeUtils.CamelToKebab(k1);
    assert CustomProperty(n2, k2)[p..] == n2 + "-" + ThemeUtils.CamelToKebab(k2);
    HyphenSplit(n1, ThemeUtils.CamelToKebab(k1), n2, ThemeUtils.CamelToKebab(k2));
    ThemeUtils.CamelToKebabInjective(k1, k2);
  }

  /** After `applyDynamicTheme`, every role of the applied mode's record
      is readable under its `--md-sys-color-` property: no other call,
      main or custom, writes that property. */
  lemma SysColorPropertiesApplied(properties: map<string, string>, theme: GeneratedTheme, isDark: bool, r: Role)
    requires r in ModeColors(theme, isDark)
    ensures var after := ApplyWrites(properties, ThemeWrites(theme, isDark));
            SysColorProperty(r) in after && after[SysColorProperty(r)] == ModeColors(theme, isDark)[r]
  {
    var colors := ModeColors(theme, isDark);
    AllRolesListsEveryRole();
    var roleWrites := RoleWrites(colors, AllRoles);
    var writes := ThemeWrites(theme, isDark);
    var at := WriteOfRole(colors, AllRoles, r);
    forall i | 0 <= i < |writes| && writes[i].0 == SysColorProperty(r)
      ensures writes[i].1 == colors[r]
    {
      if i < |roleWrites| {
        var q := RoleOfWrite(colors, AllRoles, i);
        SysColorPropertyInjective(q, r);
      } else {
        var j, e := EntryOfCustomWrite(theme.customColors, isDark, i - |roleWrites|);
        var entry := theme.customColors[j];
        SysColorPropertyFamily(r);
        CustomPropertyFamily(entry.0, ModeRecord(entry.1, isDark)[e].0);
      }
    }
    AgreeingWrites(properties, writes, SysColorProperty(r), colors[r], at);
  }

  /** A mode record whose keys can each be told apart after kebab-casing. */
  predicate WellFormedModeRecord(r: Record<string>)
  {
    UniqueKeys(r) && forall e :: 0 <= e < |r| ==> ThemeUtils.IsCamelName(r[e].0)
  }

  predicate WellFormedScheme(s: CustomColorScheme)
  {
    WellFormedModeRecord(s.light) && WellFormedModeRecord(s.dark)
  }

  /** The custom record of a theme: unique hyphen-free names, well-formed
      mode records. */
  predicate WellFormedCustomColors(customColors: Record<CustomColorScheme>)
  {
    && UniqueKeys(customColors)
    && (forall k :: 0 <= k < |customColors| ==> '-' !in customColors[k].0)
    && (forall k :: 0 <= k < |customColors| ==> WellFormedScheme(customColors[k].1))
  }

  /** After `applyDynamicTheme`, each entry of the applied mode of each
      custom colour is readable under its `--md-custom-` property. */
  lemma CustomPropertiesApplied(properties: map<string, string>, theme: GeneratedTheme, isDark: bool, j: nat, e: nat)
    requires WellFormedCustomColors(theme.customColors)
    requires j < |theme.customColors| && e < |ModeRecord(theme.customColors[j].1, isDark)|
    ensures var entry := ModeRecord(theme.customColors[j].1, isDark)[e];
            var after := ApplyWrites(properties, ThemeWrites(theme, isDark));
            CustomProperty(theme.customColors[j].0, entry.0) in after
            && after[CustomProperty(theme.customColors[j].0, entry.0)] == entry.1
  {
    var customColors := theme.customColors;
    var colors := ModeColors(theme, isDark);
    var roleWrites := RoleWrites(colors, AllRoles);
    var writes := ThemeWrites(theme, isDark);
    var record := ModeRecord(customColors[j].1, isDark);
    var name := CustomProperty(customColors[j].0, record[e].0);
    var at := CustomWriteOfEntry(customColors, isDark, j, e);
    assert writes[|roleWrites| + at] == CustomWrites(customColors, isDark)[at];
    forall i | 0 <= i < |writes| && writes[i].0 == name
      ensures writes[i].1 == record[e].1
    {
      if i < |roleWrites| {
        var q := RoleOfWrite(colors, AllRoles, i);
        SysColorPropertyFamily(q);
        CustomPropertyFamily(customColors[j].0, record[e].0);
      } else {
        var j', e' := EntryOfCustomWrite(customColors, isDark, i - |roleWrites|);
        var record' := ModeRecord(customColors[j'].1, isDark);
        assert WellFormedScheme(customColors[j'].1) && WellFormedScheme(customColors[j].1);
        CustomPropertyInjective(customColors[j'].0, record'[e'].0, customColors[j].0, record[e].0);
        assert j' == j;
        assert e' == e;
      }
    }
    AgreeingWrites(properties, writes, name, record[e].1, |roleWrites| + at);
  }

  /** Properties outside the `--md-` namespace are left alone. */
  lemma OtherPropertiesUnchanged(properties: map<string, string>, theme: GeneratedTheme, isDark: bool, name: string)
    requires !(|name| >= 5 && name[..5] == "--md-")
    ensures var after := ApplyWrites(properties, ThemeWrites(theme, isDark));
            (name in after <==> name in properties) && (name in properties ==> after[name] == properties[name])
  {
    var colors := ModeColors(theme, isDark);
    var roleWrites := RoleWrites(colors, AllRoles);
    var writes := ThemeWrites(theme, isDark);
    forall i | 0 <= i < |writes| ensures writes[i].0 != name {
      if i < |roleWrites| {
        var q := RoleOfWrite(colors, AllRoles, i);
        SysColorPropertyFamily(q);
      } else {
        var j, e := EntryOfCustomWrite(theme.customColors, isDark, i - |roleWrites|);
        var entry := theme.customColors[j];
        CustomPropertyFamily(entry.0, ModeRecord(entry.1, isDark)[e].0);
      }
    }
    UnwrittenKept(properties, writes, name);
  }

  // Generated themes meet the conditions of CustomPropertiesApplied.

  lemma ColorKeyIsCamel()
    ensures ThemeUtils.IsCamelName("color")
  {
    ThemeUtils.CamelOneWord("color", "color");
  }

  lemma OnColorKeyIsCamel()
    ensures ThemeUtils.IsCamelName("onColor")
  {
    ThemeUtils.CamelTwoWords("onColor", "on", 'C', "olor");
  }

  lemma ColorContainerKeyIsCamel()
    ensures ThemeUtils.IsCamelName("colorContainer")
  {
    ThemeUtils.CamelTwoWords("colorContainer", "color", 'C', "ontainer");
  }

  lemma OnColorContainerKeyIsCamel()
    ensures ThemeUtils.IsCamelName("onColorContainer")
  {
    ThemeUtils.CamelThreeWords("onColorContainer", "on", 'C', "olor", 'C', "ontainer");
  }

  /** The object literal of lines 78-89 has four distinct camel-case keys. */
  lemma GroupRecordWellFormed(g: ColorGroup)
    ensures Keys(GroupRecord(g)) == ["color", "onColor", "colorContainer", "onColorContainer"]
    ensures WellFormedModeRecord(GroupRecord(g))
  {
    ColorKeyIsCamel();
    OnColorKeyIsCamel();
    ColorContainerKeyIsCamel();
    OnColorContainerKeyIsCamel();
  }

  lemma SchemeOfWellFormed(group: LibCustomColorGroup)
    ensures WellFormedScheme(SchemeOf(group))
  {
    GroupRecordWellFormed(group.light);
    GroupRecordWellFormed(group.dark);
  }

  lemma {:induction false} CustomColorRecordSchemes(customColors: seq<CustomColorOption>, groups: seq<LibCustomColorGroup>)
    ensures forall k :: 0 <= k < |CustomColorRecord(customColors, groups)| ==>
              WellFormedScheme(CustomColorRecord(customColors, groups)[k].1)
  {
    if groups != [] {
      var n := |groups| - 1;
      CustomColorRecordSchemes(customColors, groups[..n]);
      SchemeOfWellFormed(groups[n]);
      PutKeepsValuesSatisfying(CustomColorRecord(customColors, groups[..n]), ColorName(customColors, n),
                               SchemeOf(groups[n]), WellFormedScheme);
    }
  }

  /** `custom${index}` has no hyphen, so hyphen-free option names give
      hyphen-free colour names. */
  lemma ColorNameHyphenFree(customColors: seq<CustomColorOption>, index: nat)
    requires forall k :: 0 <= k < |customColors| ==> '-' !in customColors[k].name
    ensures '-' !in ColorName(customColors, index)
  {
    if !(index < |customColors| && customColors[index].name != "") {
      var digits := NatToString(index);
      assert ColorName(customColors, index) == "custom" + digits;
      assert forall i :: 0 <= i < |digits| ==> digits[i] != '-';
    }
  }

  lemma CustomColorRecordNamesHyphenFree(customColors: seq<CustomColorOption>, groups: seq<LibCustomColorGroup>, k: nat)
    requires forall k :: 0 <= k < |customColors| ==> '-' !in customColors[k].name
    requires k < |CustomColorRecord(customColors, groups)|
    ensures '-' !in CustomColorRecord(customColors, groups)[k].0
  {
    var record := CustomColorRecord(customColors, groups);
    var names := NamesUpTo(customColors, |groups|);
    assert Keys(record)[k] == record[k].0;
    CustomColorRecordKeys(customColors, groups, record[k].0);
    var i :| 0 <= i < |names| && names[i] == record[k].0;
    ColorNameHyphenFree(customColors, i);
  }

  /** With hyphen-free custom colour names, a generated theme applies every
      custom colour entry under its own property. */
  lemma GeneratedCustomColorsWellFormed(lib: ColorLibrary, options: DynamicColorOptions)
    requires DynamicTheme(lib, options).Some?
    requires forall k :: 0 <= k < |options.customColors.GetOr([])| ==> '-' !in options.customColors.GetOr([])[k].name
    ensures WellFormedCustomColors(DynamicTheme(lib, options).value.customColors)
  {
    var customColors := options.customColors.GetOr([]);
    var sourceColorArgb := lib.argbFromHex(options.sourceColor.GetOr(DefaultSourceColor));
    var libCustom := LibCustomColors(lib, customColors);
    var libTheme := lib.themeFromSourceColor(sourceColorArgb.value, libCustom.value);
    var record := CustomColorRecord(customColors, libTheme.customColors);
    assert DynamicTheme(lib, options).value.customColors == record;
    CustomColorRecordSchemes(customColors, libTheme.customColors);
    forall k | 0 <= k < |record| ensures '-' !in record[k].0 {
      CustomColorRecordNamesHyphenFree(customColors, libTheme.customColors, k);
    }
  }
}
