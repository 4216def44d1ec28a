/** The colour roles of lib/types/theme.ts (`ColorTokens`) and the constant
    colour tables of lib/theme/tokens.ts (`lightColors`, `darkColors`,
    `md3Tokens.colors`). */
module Tokens {
  import opened Text
  import opened Wrappers

  /** One key of `ColorTokens`, in declaration order. */
  datatype Role =
      Primary | OnPrimary | PrimaryContainer | OnPrimaryContainer
    | Secondary | OnSecondary | SecondaryContainer | OnSecondaryContainer
    | Tertiary | OnTertiary | TertiaryContainer | OnTertiaryContainer
    | Error | OnError | ErrorContainer | OnErrorContainer
    | Background | OnBackground | Surface | OnSurface | SurfaceVariant | OnSurfaceVariant
    | SurfaceDim | SurfaceBright | SurfaceContainerLowest | SurfaceContainerLow | SurfaceContainer | SurfaceContainerHigh | SurfaceContainerHighest
    | Outline | OutlineVariant
    | InverseSurface | InverseOnSurface | InversePrimary | Shadow | Scrim | SurfaceTint

  /** The key under which a role appears in a colour record. */
  function RoleName(r: Role): string
  {
    match r
    case Primary => "primary"
    case OnPrimary => "onPrimary"
    case PrimaryContainer => "primaryContainer"
    case OnPrimaryContainer => "onPrimaryContainer"
    case Secondary => "secondary"
    case OnSecondary => "onSecondary"
    case SecondaryContainer => "secondaryContainer"
    case OnSecondaryContainer => "onSecondaryContainer"
    case Tertiary => "tertiary"
    case OnTertiary => "onTertiary"
    case TertiaryContainer => "tertiaryContainer"
    case OnTertiaryContainer => "onTertiaryContainer"
    case Error => "error"
    case OnError => "onError"
    case ErrorContainer => "errorContainer"
    case OnErrorContainer => "onErrorContainer"
    case Background => "background"
    case OnBackground => "onBackground"
    case Surface => "surface"
    case OnSurface => "onSurface"
    case SurfaceVariant => "surfaceVariant"
    case OnSurfaceVariant => "onSurfaceVariant"
    case SurfaceDim => "surfaceDim"
    case SurfaceBright => "surfaceBright"
    case SurfaceContainerLowest => "surfaceContainerLowest"
    case SurfaceContainerLow => "surfaceContainerLow"
    case SurfaceContainer => "surfaceContainer"
    case SurfaceContainerHigh => "surfaceContainerHigh"
    case SurfaceContainerHighest => "surfaceContainerHighest"
    case Outline => "outline"
    case OutlineVariant => "outlineVariant"
    case InverseSurface => "inverseSurface"
    case InverseOnSurface => "inverseOnSurface"
    case InversePrimary => "inversePrimary"
    case Shadow => "shadow"
    case Scrim => "scrim"
    case SurfaceTint => "surfaceTint"
  }

  /** Every role, in the order the object literals list them. */
  const AllRoles: seq<Role> := [
    Primary, OnPrimary, PrimaryContainer, OnPrimaryContainer,
    Secondary, OnSecondary, SecondaryContainer, OnSecondaryContainer,
    Tertiary, OnTertiary, TertiaryContainer, OnTertiaryContainer,
    Error, OnError, ErrorContainer, OnErrorContainer,
    Background, OnBackground, Surface, OnSurface, SurfaceVariant, OnSurfaceVariant,
    SurfaceDim, SurfaceBright, SurfaceContainerLowest, SurfaceContainerLow, SurfaceContainer, SurfaceContainerHigh, SurfaceContainerHighest,
    Outline, OutlineVariant,
    InverseSurface, InverseOnSurface, InversePrimary, Shadow, Scrim, SurfaceTint
  ]
  /** The position of a role in `AllRoles`. */
  function RoleIndex(r: Role): (i: nat)
    ensures i < |AllRoles| && AllRoles[i] == r
  {
    match r
    case Primary => 0
    case OnPrimary => 1
    case PrimaryContainer => 2
    case OnPrimaryContainer => 3
    case Secondary => 4
    case OnSecondary => 5
    case SecondaryContainer => 6
    case OnSecondaryContainer => 7
    case Tertiary => 8
    case OnTertiary => 9
    case TertiaryContainer => 10
    case OnTertiaryContainer => 11
    case Error => 12
    case OnError => 13
    case ErrorContainer => 14
    case OnErrorContainer => 15
    case Background => 16
    case OnBackground => 17
    case Surface => 18
    case OnSurface => 19
    case SurfaceVariant => 20
    case OnSurfaceVariant => 21
    case SurfaceDim => 22
    case SurfaceBright => 23
    case SurfaceContainerLowest => 24
    case SurfaceContainerLow => 25
    case SurfaceContainer => 26
    case SurfaceContainerHigh => 27
    case SurfaceContainerHighest => 28
    case Outline => 29
    case OutlineVariant => 30
    case InverseSurface => 31
    case InverseOnSurface => 32
    case InversePrimary => 33
    case Shadow => 34
    case Scrim => 35
    case SurfaceTint => 36
  }

  /** `AllRoles` has 37 entries and lists every role. */
  lemma AllRolesListsEveryRole()
    ensures |AllRoles| == 37
    ensures forall r: Role :: r in AllRoles
  {
    forall r: Role ensures r in AllRoles {
      var i := RoleIndex(r);
    }
  }

  /**
   * Length, first and last character of a key packed into one number:
   * enough to tell the 37 role names apart.
   */
  function KeyCode(s: string): int
  {
    if s == [] then 0 else |s| * 0x1_0000_0000 + (s[0] as int) * 0x1_0000 + (s[|s| - 1] as int)
  }

  /** The code of each role's name, written out. */
  function RoleCode(r: Role): int
  {
    match r
    case Primary => 0x7_0070_0079
    case OnPrimary => 0x9_006f_0079
    case PrimaryContainer => 0x10_0070_0072
    case OnPrimaryContainer => 0x12_006f_0072
    case Secondary => 0x9_0073_0079
    case OnSecondary => 0xb_006f_0079
    case SecondaryContainer => 0x12_0073_0072
    case OnSecondaryContainer => 0x14_006f_0072
    case Tertiary => 0x8_0074_0079
    case OnTertiary => 0xa_006f_0079
    case TertiaryContainer => 0x11_0074_0072
    case OnTertiaryContainer => 0x13_006f_0072
    case Error => 0x5_0065_0072
    case OnError => 0x7_006f_0072
    case ErrorContainer => 0xe_0065_0072
    case OnErrorContainer => 0x10_006f_0072
    case Background => 0xa_0062_0064
    case OnBackground => 0xc_006f_0064
    case Surface => 0x7_0073_0065
    case OnSurface => 0x9_006f_0065
    case SurfaceVariant => 0xe_0073_0074
    case OnSurfaceVariant => 0x10_006f_0074
    case SurfaceDim => 0xa_0073_006d
    case SurfaceBright => 0xd_0073_0074
    case SurfaceContainerLowest => 0x16_0073_0074
    case SurfaceContainerLow => 0x13_0073_0077
    case SurfaceContainer => 0x10_0073_0072
    case SurfaceContainerHigh => 0x14_0073_0068
    case SurfaceContainerHighest => 0x17_0073_0074
    case Outline => 0x7_006f_0065
    case OutlineVariant => 0xe_006f_0074
    case InverseSurface => 0xe_0069_0065
    case InverseOnSurface => 0x10_0069_0065
    case InversePrimary => 0xe_0069_0079
    case Shadow => 0x6_0073_0077
    case Scrim => 0x5_0073_006d
    case SurfaceTint => 0xb_0073_0074
  }

  /** The role whose name has the given code, if any. */
  function RoleOfCode(c: int): Option<Role>
  {
    if c == 0x7_0070_0079 then Some(Primary)
    else if c == 0x9_006f_0079 then Some(OnPrimary)
    else if c == 0x10_0070_0072 then Some(PrimaryContainer)
    else if c == 0x12_006f_0072 then Some(OnPrimaryContainer)
    else if c == 0x9_0073_0079 then Some(Secondary)
    else if c == 0xb_006f_0079 then Some(OnSecondary)
    else if c == 0x12_0073_0072 then Some(SecondaryContainer)
    else if c == 0x14_006f_0072 then Some(OnSecondaryContainer)
    else if c == 0x8_0074_0079 then Some(Tertiary)
    else if c == 0xa_006f_0079 then Some(OnTertiary)
    else if c == 0x11_0074_0072 then Some(TertiaryContainer)
    else if c == 0x13_006f_0072 then Some(OnTertiaryContainer)
    else if c == 0x5_0065_0072 then Some(Error)
    else if c == 0x7_006f_0072 then Some(OnError)
    else if c == 0xe_0065_0072 then Some(ErrorContainer)
    else if c == 0x10_006f_0072 then Some(OnErrorContainer)
    else if c == 0xa_0062_0064 then Some(Background)
    else if c == 0xc_006f_0064 then Some(OnBackground)
    else if c == 0x7_0073_0065 then Some(Surface)
    else if c == 0x9_006f_0065 then Some(OnSurface)
    else if c == 0xe_0073_0074 then Some(SurfaceVariant)
    else if c == 0x10_006f_0074 then Some(OnSurfaceVariant)
    else if c == 0xa_0073_006d then Some(SurfaceDim)
    else if c == 0xd_0073_0074 then Some(SurfaceBright)
    else if c == 0x16_0073_0074 then Some(SurfaceContainerLowest)
    else if c == 0x13_0073_0077 then Some(SurfaceContainerLow)
    else if c == 0x10_0073_0072 then Some(SurfaceContainer)
    else if c == 0x14_0073_0068 then Some(SurfaceContainerHigh)
    else if c == 0x17_0073_0074 then Some(SurfaceContainerHighest)
    else if c == 0x7_006f_0065 then Some(Outline)
    else if c == 0xe_006f_0074 then Some(OutlineVariant)
    else if c == 0xe_0069_0065 then Some(InverseSurface)
    else if c == 0x10_0069_0065 then Some(InverseOnSurface)
    else if c == 0xe_0069_0079 then Some(InversePrimary)
    else if c == 0x6_0073_0077 then Some(Shadow)
    else if c == 0x5_0073_006d then Some(Scrim)
    else if c == 0xb_0073_0074 then Some(SurfaceTint)
    else None
  }

  lemma RoleCodes1()
    ensures KeyCode(RoleName(Primary)) == RoleCode(Primary)
    ensures KeyCode(RoleName(OnPrimary)) == RoleCode(OnPrimary)
    ensures KeyCode(RoleName(PrimaryContainer)) == RoleCode(PrimaryContainer)
  {
  }

  lemma RoleCodes2()
    ensures KeyCode(RoleName(OnPrimaryContainer)) == RoleCode(OnPrimaryContainer)
    ensures KeyCode(RoleName(Secondary)) == RoleCode(Secondary)
    ensures KeyCode(RoleName(OnSecondary)) == RoleCode(OnSecondary)
  {
  }

  lemma RoleCodes3()
    ensures KeyCode(RoleName(SecondaryContainer)) == RoleCode(SecondaryContainer)
    ensures KeyCode(RoleName(OnSecondaryContainer)) == RoleCode(OnSecondaryContainer)
    ensures KeyCode(RoleName(Tertiary)) == RoleCode(Tertiary)
  {
  }

  lemma RoleCodes4()
    ensures KeyCode(RoleName(OnTertiary)) == RoleCode(OnTertiary)
    ensures KeyCode(RoleName(TertiaryContainer)) == RoleCode(TertiaryContainer)
    ensures KeyCode(RoleName(OnTertiaryContainer)) == RoleCode(OnTertiaryContainer)
  {
  }

  lemma RoleCodes5()
    ensures KeyCode(RoleName(Error)) == RoleCode(Error)
    ensures KeyCode(RoleName(OnError)) == RoleCode(OnError)
    ensures KeyCode(RoleName(ErrorContainer)) == RoleCode(ErrorContainer)
  {
  }

  lemma RoleCodes6()
    ensures KeyCode(RoleName(OnErrorContainer)) == RoleCode(OnErrorContainer)
    ensures KeyCode(RoleName(Background)) == RoleCode(Background)
    ensures KeyCode(RoleName(OnBackground)) == RoleCode(OnBackground)
  {
  }

  lemma RoleCodes7()
    ensures KeyCode(RoleName(Surface)) == RoleCode(Surface)
    ensures KeyCode(RoleName(OnSurface)) == RoleCode(OnSurface)
    ensures KeyCode(RoleName(SurfaceVariant)) == RoleCode(SurfaceVariant)
  {
  }

  lemma RoleCodes8()
    ensures KeyCode(RoleName(OnSurfaceVariant)) == RoleCode(OnSurfaceVariant)
    ensures KeyCode(RoleName(SurfaceDim)) == RoleCode(SurfaceDim)
    ensures KeyCode(RoleName(SurfaceBright)) == RoleCode(SurfaceBright)
  {
  }

  lemma RoleCodes9()
    ensures KeyCode(RoleName(SurfaceContainerLowest)) == RoleCode(SurfaceContainerLowest)
    ensures KeyCode(RoleName(SurfaceContainerLow)) == RoleCode(SurfaceContainerLow)
    ensures KeyCode(RoleName(SurfaceContainer)) == RoleCode(SurfaceContainer)
  {
  }

  lemma RoleCodes10()
    ensures KeyCode(RoleName(SurfaceContainerHigh)) == RoleCode(SurfaceContainerHigh)
    ensures KeyCode(RoleName(SurfaceContainerHighest)) == RoleCode(SurfaceContainerHighest)
    ensures KeyCode(RoleName(Outline)) == RoleCode(Outline)
  {
  }

  lemma RoleCodes11()
    ensures KeyCode(RoleName(OutlineVariant)) == RoleCode(OutlineVariant)
    ensures KeyCode(RoleName(InverseSurface)) == RoleCode(InverseSurface)
    ensures KeyCode(RoleName(InverseOnSurface)) == RoleCode(InverseOnSurface)
  {
  }

  lemma RoleCodes12()
    ensures KeyCode(RoleName(InversePrimary)) == RoleCode(InversePrimary)
    ensures KeyCode(RoleName(Shadow)) == RoleCode(Shadow)
    ensures KeyCode(RoleName(Scrim)) == RoleCode(Scrim)
  {
  }

  lemma RoleCodes13()
    ensures KeyCode(RoleName(SurfaceTint)) == RoleCode(SurfaceTint)
  {
  }

  lemma RoleCodeOfName(r: Role)
    ensures KeyCode(RoleName(r)) == RoleCode(r)
  {
    RoleCodes1();
    RoleCodes2();
    RoleCodes3();
    RoleCodes4();
    RoleCodes5();
    RoleCodes6();
    RoleCodes7();
    RoleCodes8();
    RoleCodes9();
    RoleCodes10();
    RoleCodes11();
    RoleCodes12();
    RoleCodes13();
    match r
    case Primary =>
    case OnPrimary =>
    case PrimaryContainer =>
    case OnPrimaryContainer =>
    case Secondary =>
    case OnSecondary =>
    case SecondaryContainer =>
    case OnSecondaryContainer =>
    case Tertiary =>
    case OnTertiary =>
    case TertiaryContainer =>
    case OnTertiaryContainer =>
    case Error =>
    case OnError =>
    case ErrorContainer =>
    case OnErrorContainer =>
    case Background =>
    case OnBackground =>
    case Surface =>
    case OnSurface =>
    case SurfaceVariant =>
    case OnSurfaceVariant =>
    case SurfaceDim =>
    case SurfaceBright =>
    case SurfaceContainerLowest =>
    case SurfaceContainerLow =>
    case SurfaceContainer =>
    case SurfaceContainerHigh =>
    case SurfaceContainerHighest =>
    case Outline =>
    case OutlineVariant =>
    case InverseSurface =>
    case InverseOnSurface =>
    case InversePrimary =>
    case Shadow =>
    case Scrim =>
    case SurfaceTint =>
  }

  lemma RoleOfCodeInvertsRoleCode(r: Role)
    ensures RoleOfCode(RoleCode(r)) == Some(r)
  {
  }

  /** Distinct roles have distinct keys, so a colour record has 37 keys. */
  lemma RoleNameInjective(a: Role, b: Role)
    ensures RoleName(a) == RoleName(b) ==> a == b
  {
    RoleCodeOfName(a);
    RoleCodeOfName(b);
    RoleOfCodeInvertsRoleCode(a);
    RoleOfCodeInvertsRoleCode(b);
  }

  /** A colour record: role to colour string. */
  type ColorTable = map<Role, string>

  /** A record has every one of the 37 keys. */
  ghost predicate Complete(t: ColorTable) { forall r: Role :: r in t }

  /** `#` and six lower-case hex digits. */
  predicate IsCanonicalHex(s: string) { |s| == 7 && s[0] == '#' && AllLowerHexDigits(s[1..]) }

  datatype Mode = Light | Dark

  /** The value the provider writes to `data-theme` and the class list. */
  function ModeName(m: Mode): string
  {
    match m
    case Light => "light"
    case Dark => "dark"
  }

  /** The entries of `lightColors`. */
  function LightValue(r: Role): string
  {
    match r
    case Primary => "#6750a4"
    case OnPrimary => "#ffffff"
    case PrimaryContainer => "#eaddff"
    case OnPrimaryContainer => "#21005d"
    case Secondary => "#625b71"
    case OnSecondary => "#ffffff"
    case SecondaryContainer => "#e8def8"
    case OnSecondaryContainer => "#1d192b"
    case Tertiary => "#7d5260"
    case OnTertiary => "#ffffff"
    case TertiaryContainer => "#ffd8e4"
    case OnTertiaryContainer => "#31111d"
    case Error => "#ba1a1a"
    case OnError => "#ffffff"
    case ErrorContainer => "#ffdad6"
    case OnErrorContainer => "#410002"
    case Background => "#fffbff"
    case OnBackground => "#1c1b1f"
    case Surface => "#fffbff"
    case OnSurface => "#1c1b1f"
    case SurfaceVariant => "#e7e0ec"
    case OnSurfaceVariant => "#49454f"
    case SurfaceDim => "#ded8e1"
    case SurfaceBright => "#fffbff"
    case SurfaceContainerLowest => "#ffffff"
    case SurfaceContainerLow => "#f7f2fa"
    case SurfaceContainer => "#f3edf7"
    case SurfaceContainerHigh => "#ece6f0"
    case SurfaceContainerHighest => "#e6e0e9"
    case Outline => "#79747e"
    case OutlineVariant => "#cac4d0"
    case InverseSurface => "#313033"
    case InverseOnSurface => "#f4eff4"
    case InversePrimary => "#d0bcff"
    case Shadow => "#000000"
    case Scrim => "#000000"
    case SurfaceTint => "#6750a4"
  }

  /** The entries of `darkColors`. */
  function DarkValue(r: Role): string
  {
    match r
    case Primary => "#d0bcff"
    case OnPrimary => "#381e72"
    case PrimaryContainer => "#4f378b"
    case OnPrimaryContainer => "#eaddff"
    case Secondary => "#ccc2dc"
    case OnSecondary => "#332d41"
    case SecondaryContainer => "#4a4458"
    case OnSecondaryContainer => "#e8def8"
    case Tertiary => "#efb8c8"
    case OnTertiary => "#492532"
    case TertiaryContainer => "#633b48"
    case OnTertiaryContainer => "#ffd8e4"
    case Error => "#ffb4ab"
    case OnError => "#690005"
    case ErrorContainer => "#93000a"
    case OnErrorContainer => "#ffdad6"
    case Background => "#101014"
    case OnBackground => "#e6e1e5"
    case Surface => "#101014"
    case OnSurface => "#e6e1e5"
    case SurfaceVariant => "#49454f"
    case OnSurfaceVariant => "#cac4d0"
    case SurfaceDim => "#101014"
    case SurfaceBright => "#36363b"
    case SurfaceContainerLowest => "#0b0b0f"
    case SurfaceContainerLow => "#1c1b1f"
    case SurfaceContainer => "#201f23"
    case SurfaceContainerHigh => "#2b2a2e"
    case SurfaceContainerHighest => "#363539"
    case Outline => "#938f99"
    case OutlineVariant => "#49454f"
    case InverseSurface => "#e6e1e5"
    case InverseOnSurface => "#313033"
    case InversePrimary => "#6750a4"
    case Shadow => "#000000"
    case Scrim => "#000000"
    case SurfaceTint => "#d0bcff"
  }

  const LightColors: ColorTable := map r: Role | true :: LightValue(r)
  const DarkColors: ColorTable := map r: Role | true :: DarkValue(r)

  /** `md3Tokens.colors[mode]`: the light entry is `lightColors` and the
      dark entry is `darkColors`. */
  function Md3Colors(m: Mode): ColorTable
  {
    match m
    case Light => LightColors
    case Dark => DarkColors
  }

  /** The two constant records hold exactly the listed entries. */
  lemma TableEntries(r: Role)
    ensures r in LightColors && LightColors[r] == LightValue(r)
    ensures r in DarkColors && DarkColors[r] == DarkValue(r)
  {
    var i := RoleIndex(r);
  }

  /** Both tables have all 37 keys. */
  lemma TablesComplete()
    ensures Complete(LightColors) && Complete(DarkColors)
  {
    forall r: Role ensures r in LightColors && r in DarkColors {
      TableEntries(r);
    }
  }

  lemma LightValuesCanonical1()
    ensures IsCanonicalHex(LightValue(Primary))
    ensures IsCanonicalHex(LightValue(OnPrimary))
    ensures IsCanonicalHex(LightValue(PrimaryContainer))
  {
  }

  lemma LightValuesCanonical2()
    ensures IsCanonicalHex(LightValue(OnPrimaryContainer))
    ensures IsCanonicalHex(LightValue(Secondary))
    ensures IsCanonicalHex(LightValue(OnSecondary))
  {
  }

  lemma LightValuesCanonical3()
    ensures IsCanonicalHex(LightValue(SecondaryContainer))
    ensures IsCanonicalHex(LightValue(OnSecondaryContainer))
    ensures IsCanonicalHex(LightValue(Tertiary))
  {
  }

  lemma LightValuesCanonical4()
    ensures IsCanonicalHex(LightValue(OnTertiary))
    ensures IsCanonicalHex(LightValue(TertiaryContainer))
    ensures IsCanonicalHex(LightValue(OnTertiaryContainer))
  {
  }

  lemma LightValuesCanonical5()
    ensures IsCanonicalHex(LightValue(Error))
    ensures IsCanonicalHex(LightValue(OnError))
    ensures IsCanonicalHex(LightValue(ErrorContainer))
  {
  }

  lemma LightValuesCanonical6()
    ensures IsCanonicalHex(LightValue(OnErrorContainer))
    ensures IsCanonicalHex(LightValue(Background))
    ensures IsCanonicalHex(LightValue(OnBackground))
  {
  }

  lemma LightValuesCanonical7()
    ensures IsCanonicalHex(LightValue(Surface))
    ensures IsCanonicalHex(LightValue(OnSurface))
    ensures IsCanonicalHex(LightValue(SurfaceVariant))
  {
  }

  lemma LightValuesCanonical8()
    ensures IsCanonicalHex(LightValue(OnSurfaceVariant))
    ensures IsCanonicalHex(LightValue(SurfaceDim))
    ensures IsCanonicalHex(LightValue(SurfaceBright))
  {
  }

  lemma LightValuesCanonical9()
    ensures IsCanonicalHex(LightValue(SurfaceContainerLowest))
    ensures IsCanonicalHex(LightValue(SurfaceContainerLow))
    ensures IsCanonicalHex(LightValue(SurfaceContainer))
  {
  }

  lemma LightValuesCanonical10()
    ensures IsCanonicalHex(LightValue(SurfaceContainerHigh))
    ensures IsCanonicalHex(LightValue(SurfaceContainerHighest))
    ensures IsCanonicalHex(LightValue(Outline))
  {
  }

  lemma LightValuesCanonical11()
    ensures IsCanonicalHex(LightValue(OutlineVariant))
    ensures IsCanonicalHex(LightValue(InverseSurface))
    ensures IsCanonicalHex(LightValue(InverseOnSurface))
  {
  }

  lemma LightValuesCanonical12()
    ensures IsCanonicalHex(LightValue(InversePrimary))
    ensures IsCanonicalHex(LightValue(Shadow))
    ensures IsCanonicalHex(LightValue(Scrim))
  {
  }

  lemma LightValuesCanonical13()
    ensures IsCanonicalHex(LightValue(SurfaceTint))
  {
  }

  lemma LightValueCanonical(r: Role)
    ensures IsCanonicalHex(LightValue(r))
  {
    LightValuesCanonical1();
    LightValuesCanonical2();
    LightValuesCanonical3();
    LightValuesCanonical4();
    LightValuesCanonical5();
    LightValuesCanonical6();
    LightValuesCanonical7();
    LightValuesCanonical8();
    LightValuesCanonical9();
    LightValuesCanonical10();
    LightValuesCanonical11();
    LightValuesCanonical12();
    LightValuesCanonical13();
    match r
    case Primary =>
    case OnPrimary =>
    case PrimaryContainer =>
    case OnPrimaryContainer =>
    case Secondary =>
    case OnSecondary =>
    case SecondaryContainer =>
    case OnSecondaryContainer =>
    case Tertiary =>
    case OnTertiary =>
    case TertiaryContainer =>
    case OnTertiaryContainer =>
    case Error =>
    case OnError =>
    case ErrorContainer =>
    case OnErrorContainer =>
    case Background =>
    case OnBackground =>
    case Surface =>
    case OnSurface =>
    case SurfaceVariant =>
    case OnSurfaceVariant =>
    case SurfaceDim =>
    case SurfaceBright =>
    case SurfaceContainerLowest =>
    case SurfaceContainerLow =>
    case SurfaceContainer =>
    case SurfaceContainerHigh =>
    case SurfaceContainerHighest =>
    case Outline =>
    case OutlineVariant =>
    case InverseSurface =>
    case InverseOnSurface =>
    case InversePrimary =>
    case Shadow =>
    case Scrim =>
    case SurfaceTint =>
  }

  lemma DarkValuesCanonical1()
    ensures IsCanonicalHex(DarkValue(Primary))
    ensures IsCanonicalHex(DarkValue(OnPrimary))
    ensures IsCanonicalHex(DarkValue(PrimaryContainer))
  {
  }

  lemma DarkValuesCanonical2()
    ensures IsCanonicalHex(DarkValue(OnPrimaryContainer))
    ensures IsCanonicalHex(DarkValue(Secondary))
    ensures IsCanonicalHex(DarkValue(OnSecondary))
  {
  }

  lemma DarkValuesCanonical3()
    ensures IsCanonicalHex(DarkValue(SecondaryContainer))
    ensures IsCanonicalHex(DarkValue(OnSecondaryContainer))
    ensures IsCanonicalHex(DarkValue(Tertiary))
  {
  }

  lemma DarkValuesCanonical4()
    ensures IsCanonicalHex(DarkValue(OnTertiary))
    ensures IsCanonicalHex(DarkValue(TertiaryContainer))
    ensures IsCanonicalHex(DarkValue(OnTertiaryContainer))
  {
  }

  lemma DarkValuesCanonical5()
    ensures IsCanonicalHex(DarkValue(Error))
    ensures IsCanonicalHex(DarkValue(OnError))
    ensures IsCanonicalHex(DarkValue(ErrorContainer))
  {
  }

  lemma DarkValuesCanonical6()
    ensures IsCanonicalHex(DarkValue(OnErrorContainer))
    ensures IsCanonicalHex(DarkValue(Background))
    ensures IsCanonicalHex(DarkValue(OnBackground))
  {
  }

  lemma DarkValuesCanonical7()
    ensures IsCanonicalHex(DarkValue(Surface))
    ensures IsCanonicalHex(DarkValue(OnSurface))
    ensures IsCanonicalHex(DarkValue(SurfaceVariant))
  {
  }

  lemma DarkValuesCanonical8()
    ensures IsCanonicalHex(DarkValue(OnSurfaceVariant))
    ensures IsCanonicalHex(DarkValue(SurfaceDim))
    ensures IsCanonicalHex(DarkValue(SurfaceBright))
  {
  }

  lemma DarkValuesCanonical9()
    ensures IsCanonicalHex(DarkValue(SurfaceContainerLowest))
    ensures IsCanonicalHex(DarkValue(SurfaceContainerLow))
    ensures IsCanonicalHex(DarkValue(SurfaceContainer))
  {
  }

  lemma DarkValuesCanonical10()
    ensures IsCanonicalHex(DarkValue(SurfaceContainerHigh))
    ensures IsCanonicalHex(DarkValue(SurfaceContainerHighest))
    ensures IsCanonicalHex(DarkValue(Outline))
  {
  }

  lemma DarkValuesCanonical11()
    ensures IsCanonicalHex(DarkValue(OutlineVariant))
    ensures IsCanonicalHex(DarkValue(InverseSurface))
    ensures IsCanonicalHex(DarkValue(InverseOnSurface))
  {
  }

  lemma DarkValuesCanonical12()
    ensures IsCanonicalHex(DarkValue(InversePrimary))
    ensures IsCanonicalHex(DarkValue(Shadow))
    ensures IsCanonicalHex(DarkValue(Scrim))
  {
  }

  lemma DarkValuesCanonical13()
    ensures IsCanonicalHex(DarkValue(SurfaceTint))
  {
  }

  lemma DarkValueCanonical(r: Role)
    ensures IsCanonicalHex(DarkValue(r))
  {
    DarkValuesCanonical1();
    DarkValuesCanonical2();
    DarkValuesCanonical3();
    DarkValuesCanonical4();
    DarkValuesCanonical5();
    DarkValuesCanonical6();
    DarkValuesCanonical7();
    DarkValuesCanonical8();
    DarkValuesCanonical9();
    DarkValuesCanonical10();
    DarkValuesCanonical11();
    DarkValuesCanonical12();
    DarkValuesCanonical13();
    match r
    case Primary =>
    case OnPrimary =>
    case PrimaryContainer =>
    case OnPrimaryContainer =>
    case Secondary =>
    case OnSecondary =>
    case SecondaryContainer =>
    case OnSecondaryContainer =>
    case Tertiary =>
    case OnTertiary =>
    case TertiaryContainer =>
    case OnTertiaryContainer =>
    case Error =>
    case OnError =>
    case ErrorContainer =>
    case OnErrorContainer =>
    case Background =>
    case OnBackground =>
    case Surface =>
    case OnSurface =>
    case SurfaceVariant =>
    case OnSurfaceVariant =>
    case SurfaceDim =>
    case SurfaceBright =>
    case SurfaceContainerLowest =>
    case SurfaceContainerLow =>
    case SurfaceContainer =>
    case SurfaceContainerHigh =>
    case SurfaceContainerHighest =>
    case Outline =>
    case OutlineVariant =>
    case InverseSurface =>
    case InverseOnSurface =>
    case InversePrimary =>
    case Shadow =>
    case Scrim =>
    case SurfaceTint =>
  }

  /** Every value in both tables is `#` plus six lower-case hex digits. */
  lemma TablesCanonical(r: Role)
    ensures r in LightColors && IsCanonicalHex(LightColors[r])
    ensures r in DarkColors && IsCanonicalHex(DarkColors[r])
  {
    TableEntries(r);
    LightValueCanonical(r);
    DarkValueCanonical(r);
  }

  /** shadow and scrim are black in both modes. */
  lemma ShadowAndScrimBlack()
    ensures Shadow in LightColors && LightColors[Shadow] == "#000000"
    ensures Scrim in LightColors && LightColors[Scrim] == "#000000"
    ensures Shadow in DarkColors && DarkColors[Shadow] == "#000000"
    ensures Scrim in DarkColors && DarkColors[Scrim] == "#000000"
  {
    TableEntries(Shadow);
    TableEntries(Scrim);
  }

  /** surfaceTint repeats primary in both modes. */
  lemma SurfaceTintIsPrimary()
    ensures SurfaceTint in LightColors && Primary in LightColors
    ensures LightColors[SurfaceTint] == LightColors[Primary]
    ensures SurfaceTint in DarkColors && Primary in DarkColors
    ensures DarkColors[SurfaceTint] == DarkColors[Primary]
  {
    TableEntries(SurfaceTint);
    TableEntries(Primary);
  }

  /** Each mode's inversePrimary is the other mode's primary. */
  lemma InversePrimaryIsOtherPrimary()
    ensures InversePrimary in LightColors && Primary in DarkColors
    ensures LightColors[InversePrimary] == DarkColors[Primary]
    ensures InversePrimary in DarkColors && Primary in LightColors
    ensures DarkColors[InversePrimary] == LightColors[Primary]
  {
    TableEntries(InversePrimary);
    TableEntries(Primary);
  }

  /** background repeats surface and onBackground repeats onSurface. */
  lemma BackgroundIsSurface()
    ensures Background in LightColors && Surface in LightColors
    ensures LightColors[Background] == LightColors[Surface]
    ensures OnBackground in LightColors && OnSurface in LightColors
    ensures LightColors[OnBackground] == LightColors[OnSurface]
    ensures Background in DarkColors && Surface in DarkColors
    ensures DarkColors[Background] == DarkColors[Surface]
    ensures OnBackground in DarkColors && OnSurface in DarkColors
    ensures DarkColors[OnBackground] == DarkColors[OnSurface]
  {
    TableEntries(Background);
    TableEntries(Surface);
    TableEntries(OnBackground);
    TableEntries(OnSurface);
  }
}
