/** `lib/types/theme.ts`: the shape of a theme configuration and the
    built-in colour tables and presets. Colour values are OKLCH strings;
    the constants are written here through their numeric components, so
    that their text and their validity follow from one lemma each. */
module ThemeTypes {
  import opened Wrappers
  import opened JsString
  import opened Num
  import ThemeUtils

  /** `ThemeMode` */
  datatype ThemeMode = Light | Dark | System

  /** The keys of `ThemeColors`. */
  datatype ColorKey =
    | Background | Foreground | Card | CardForeground | Popover | PopoverForeground
    | Primary | PrimaryForeground | Secondary | SecondaryForeground | Muted | MutedForeground
    | Accent | AccentForeground | Destructive | Border | Input | Ring
    | Chart1 | Chart2 | Chart3 | Chart4 | Chart5 | Sidebar
    | SidebarForeground | SidebarPrimary | SidebarPrimaryForeground | SidebarAccent | SidebarAccentForeground | SidebarBorder
    | SidebarRing | AbsenceF | AbsenceFText | AbsenceJ | AbsenceJText | AbsenceC
    | AbsenceCText | AbsenceE | AbsenceEText | AbsenceR | AbsenceRText | AbsenceH
    | AbsenceHText | Module1 | Module2 | Module3 | Module4 | Module5
    | Module6 | Module7 | Module8 | Module9 | Module10

  /** `ThemeColors`: a colour text for every key. */
  type Palette = ColorKey -> string

  /** `Partial<ThemeColors>`: colour text for some of the keys. */
  type Colors = map<ColorKey, string>

  /** `{ ...base, ...over }`: the overrides win. */
  function Spread(base: Palette, over: Colors): (r: Palette)
    ensures forall k :: k in over ==> r(k) == over[k]
    ensures forall k :: k !in over ==> r(k) == base(k)
  {
    k => if k in over then over[k] else base(k)
  }

  /** `ThemePreset` */
  datatype ThemePreset = ThemePreset(id: string, name: string, description: string,
                                     light: Palette, dark: Palette, isCustom: Option<bool>)

  /** `ThemeConfig`: the optional fields are `None` when absent. */
  datatype ThemeConfig = ThemeConfig(mode: ThemeMode, customLight: Option<Colors>, customDark: Option<Colors>,
                                     preset: Option<string>, customPresets: Option<seq<ThemePreset>>)

  // ---- colour constants ----

  /** A decimal component `whole.frac` with `places` fraction digits, the
      fraction zero-padded: `Decimal(0, 145, 3)` is `0.145`,
      `Decimal(0, 80, 2)` is `0.80` and `Decimal(180, 0, 0)` is `180`. */
  datatype Decimal = Decimal(whole: nat, frac: nat, places: nat)

  /** A decimal whose fraction fits its digits. */
  type Comp = x: Decimal | x.frac < Pow10(x.places) witness Decimal(0, 0, 0)

  /** `f` written with exactly `p` digits. */
  function FracText(f: nat, p: nat): (r: string)
    requires f < Pow10(p)
    ensures |r| == p && AllDigits(r) && DigitsValue(r) == f
  {
    if p == 0 then ""
    else
      var s := FracText(f / 10, p - 1);
      var r := s + [DigitChar(f % 10)];
      assert r[..|r| - 1] == s;
      r
  }

  function CompText(x: Comp): (r: string)
  {
    if x.places == 0 then NatToString(x.whole)
    else NatToString(x.whole) + ("." + FracText(x.frac, x.places))
  }

  /** The number a component denotes. */
  function CompValue(x: Comp): real {
    x.whole as real + x.frac as real / Pow10(x.places) as real
  }

  /** `x <= num / den`, in integers. */
  predicate AtMost(x: Comp, num: nat, den: nat) {
    den * (x.whole * Pow10(x.places) + x.frac) <= num * Pow10(x.places)
  }

  /** One colour: `oklch(l c h)`, or `oklch(l c h / a%)`. */
  datatype Shade = Shade(l: Comp, c: Comp, h: Comp, alphaPercent: Option<nat>)

  function Oklch(l: Comp, c: Comp, h: Comp): Shade { Shade(l, c, h, None) }
  function OklchAlpha(l: Comp, c: Comp, h: Comp, pct: nat): Shade { Shade(l, c, h, Some(pct)) }

  function AlphaOf(s: Shade): Option<string> {
    if s.alphaPercent.Some? then Some(NatToString(s.alphaPercent.value) + "%") else None
  }

  function ShadeText(s: Shade): string
  {
    ThemeUtils.Render(ThemeUtils.Lch(CompText(s.l), CompText(s.c), CompText(s.h)), AlphaOf(s))
  }

  /** The ranges `isValidOKLCH` asks for, on the components. */
  predicate InRange(s: Shade) {
    AtMost(s.l, 1, 1) && AtMost(s.c, 1, 2) && AtMost(s.h, 360, 1)
    && (s.alphaPercent.Some? ==> s.alphaPercent.value <= 100)
  }

  /** The colour texts of a table. */
  function Texts(m: map<ColorKey, Shade>): (r: Colors)
  {
    map k | k in m :: ShadeText(m[k])
  }

  /** `DEFAULT_LIGHT_COLORS` */
  function LightShade(k: ColorKey): (s: Shade)
    ensures Tame(s)
  {
    match k
    case Background => Oklch(Decimal(1, 0, 0), Decimal(0, 0, 0), Decimal(0, 0, 0))
    case Foreground => Oklch(Decimal(0, 145, 3), Decimal(0, 0, 0), Decimal(0, 0, 0))
    case Card => Oklch(Decimal(1, 0, 0), Decimal(0, 0, 0), Decimal(0, 0, 0))
    case CardForeground => Oklch(Decimal(0, 145, 3), Decimal(0, 0, 0), Decimal(0, 0, 0))
    case Popover => Oklch(Decimal(1, 0, 0), Decimal(0, 0, 0), Decimal(0, 0, 0))
    case PopoverForeground => Oklch(Decimal(0, 145, 3), Decimal(0, 0, 0), Decimal(0, 0, 0))
    case Primary => Oklch(Decimal(0, 205, 3), Decimal(0, 0, 0), Decimal(0, 0, 0))
    case PrimaryForeground => Oklch(Decimal(0, 985, 3), Decimal(0, 0, 0), Decimal(0, 0, 0))
    case Secondary => Oklch(Decimal(0, 97, 2), Decimal(0, 0, 0), Decimal(0, 0, 0))
    case SecondaryForeground => Oklch(Decimal(0, 205, 3), Decimal(0, 0, 0), Decimal(0, 0, 0))
    case Muted => Oklch(Decimal(0, 97, 2), Decimal(0, 0, 0), Decimal(0, 0, 0))
    case MutedForeground => Oklch(Decimal(0, 556, 3), Decimal(0, 0, 0), Decimal(0, 0, 0))
    case Accent => Oklch(Decimal(0, 97, 2), Decimal(0, 0, 0), Decimal(0, 0, 0))
    case AccentForeground => Oklch(Decimal(0, 205, 3), Decimal(0, 0, 0), Decimal(0, 0, 0))
    case Destructive => Oklch(Decimal(0, 577, 3), Decimal(0, 245, 3), Decimal(27, 325, 3))
    case Border => Oklch(Decimal(0, 922, 3), Decimal(0, 0, 0), Decimal(0, 0, 0))
    case Input => Oklch(Decimal(0, 922, 3), Decimal(0, 0, 0), Decimal(0, 0, 0))
    case Ring => Oklch(Decimal(0, 708, 3), Decimal(0, 0, 0), Decimal(0, 0, 0))
    case Chart1 => Oklch(Decimal(0, 646, 3), Decimal(0, 222, 3), Decimal(41, 116, 3))
    case Chart2 => Oklch(Decimal(0, 6, 1), Decimal(0, 118, 3), Decimal(184, 704, 3))
    case Chart3 => Oklch(Decimal(0, 398, 3), Decimal(0, 7, 2), Decimal(227, 392, 3))
    case Chart4 => Oklch(Decimal(0, 828, 3), Decimal(0, 189, 3), Decimal(84, 429, 3))
    case Chart5 => Oklch(Decimal(0, 769, 3), Decimal(0, 188, 3), Decimal(70, 8, 2))
    case Sidebar => Oklch(Decimal(0, 985, 3), Decimal(0, 0, 0), Decimal(0, 0, 0))
    case SidebarForeground => Oklch(Decimal(0, 145, 3), Decimal(0, 0, 0), Decimal(0, 0, 0))
    case SidebarPrimary => Oklch(Decimal(0, 205, 3), Decimal(0, 0, 0), Decimal(0, 0, 0))
    case SidebarPrimaryForeground => Oklch(Decimal(0, 985, 3), Decimal(0, 0, 0), Decimal(0, 0, 0))
    case SidebarAccent => Oklch(Decimal(0, 97, 2), Decimal(0, 0, 0), Decimal(0, 0, 0))
    case SidebarAccentForeground => Oklch(Decimal(0, 205, 3), Decimal(0, 0, 0), Decimal(0, 0, 0))
    case SidebarBorder => Oklch(Decimal(0, 922, 3), Decimal(0, 0, 0), Decimal(0, 0, 0))
    case SidebarRing => Oklch(Decimal(0, 708, 3), Decimal(0, 0, 0), Decimal(0, 0, 0))
    case AbsenceF => Oklch(Decimal(0, 95, 2), Decimal(0, 1, 1), Decimal(15, 0, 0))
    case AbsenceFText => Oklch(Decimal(0, 3, 1), Decimal(0, 15, 2), Decimal(15, 0, 0))
    case AbsenceJ => Oklch(Decimal(0, 92, 2), Decimal(0, 12, 2), Decimal(155, 0, 0))
    case AbsenceJText => Oklch(Decimal(0, 25, 2), Decimal(0, 12, 2), Decimal(155, 0, 0))
    case AbsenceC => Oklch(Decimal(0, 92, 2), Decimal(0, 1, 1), Decimal(180, 0, 0))
    case AbsenceCText => Oklch(Decimal(0, 25, 2), Decimal(0, 1, 1), Decimal(180, 0, 0))
    case AbsenceE => Oklch(Decimal(0, 92, 2), Decimal(0, 12, 2), Decimal(300, 0, 0))
    case AbsenceEText => Oklch(Decimal(0, 25, 2), Decimal(0, 12, 2), Decimal(300, 0, 0))
    case AbsenceR => Oklch(Decimal(0, 92, 2), Decimal(0, 12, 2), Decimal(70, 0, 0))
    case AbsenceRText => Oklch(Decimal(0, 25, 2), Decimal(0, 12, 2), Decimal(70, 0, 0))
    case AbsenceH => Oklch(Decimal(0, 9, 1), Decimal(0, 0, 0), Decimal(0, 0, 0))
    case AbsenceHText => Oklch(Decimal(0, 2, 1), Decimal(0, 0, 0), Decimal(0, 0, 0))
    case Module1 => Oklch(Decimal(0, 75, 2), Decimal(0, 15, 2), Decimal(250, 0, 0))
    case Module2 => Oklch(Decimal(0, 75, 2), Decimal(0, 15, 2), Decimal(145, 0, 0))
    case Module3 => Oklch(Decimal(0, 80, 2), Decimal(0, 15, 2), Decimal(85, 0, 0))
    case Module4 => Oklch(Decimal(0, 75, 2), Decimal(0, 15, 2), Decimal(350, 0, 0))
    case Module5 => Oklch(Decimal(0, 75, 2), Decimal(0, 15, 2), Decimal(200, 0, 0))
    case Module6 => Oklch(Decimal(0, 75, 2), Decimal(0, 15, 2), Decimal(130, 0, 0))
    case Module7 => Oklch(Decimal(0, 70, 2), Decimal(0, 15, 2), Decimal(270, 0, 0))
    case Module8 => Oklch(Decimal(0, 75, 2), Decimal(0, 15, 2), Decimal(50, 0, 0))
    case Module9 => Oklch(Decimal(0, 72, 2), Decimal(0, 18, 2), Decimal(320, 0, 0))
    case Module10 => Oklch(Decimal(0, 77, 2), Decimal(0, 14, 2), Decimal(220, 0, 0))
  }

  /** `DEFAULT_DARK_COLORS` */
  function DarkShade(k: ColorKey): (s: Shade)
    ensures Tame(s)
  {
    match k
    case Background => Oklch(Decimal(0, 22, 2), Decimal(0, 0, 0), Decimal(0, 0, 0))
    case Foreground => Oklch(Decimal(0, 985, 3), Decimal(0, 0, 0), Decimal(0, 0, 0))
    case Card => Oklch(Decimal(0, 26, 2), Decimal(0, 0, 0), Decimal(0, 0, 0))
    case CardForeground => Oklch(Decimal(0, 985, 3), Decimal(0, 0, 0), Decimal(0, 0, 0))
    case Popover => Oklch(Decimal(0, 26, 2), Decimal(0, 0, 0), Decimal(0, 0, 0))
    case PopoverForeground => Oklch(Decimal(0, 985, 3), Decimal(0, 0, 0), Decimal(0, 0, 0))
    case Primary => Oklch(Decimal(0, 922, 3), Decimal(0, 0, 0), Decimal(0, 0, 0))
    case PrimaryForeground => Oklch(Decimal(0, 205, 3), Decimal(0, 0, 0), Decimal(0, 0, 0))
    case Secondary => Oklch(Decimal(0, 3, 1), Decimal(0, 0, 0), Decimal(0, 0, 0))
    case SecondaryForeground => Oklch(Decimal(0, 985, 3), Decimal(0, 0, 0), Decimal(0, 0, 0))
    case Muted => Oklch(Decimal(0, 3, 1), Decimal(0, 0, 0), Decimal(0, 0, 0))
    case MutedForeground => Oklch(Decimal(0, 708, 3), Decimal(0, 0, 0), Decimal(0, 0, 0))
    case Accent => Oklch(Decimal(0, 3, 1), Decimal(0, 0, 0), Decimal(0, 0, 0))
    case AccentForeground => Oklch(Decimal(0, 985, 3), Decimal(0, 0, 0), Decimal(0, 0, 0))
    case Destructive => Oklch(Decimal(0, 704, 3), Decimal(0, 191, 3), Decimal(22, 216, 3))
    case Border => OklchAlpha(Decimal(1, 0, 0), Decimal(0, 0, 0), Decimal(0, 0, 0), 10)
    case Input => OklchAlpha(Decimal(1, 0, 0), Decimal(0, 0, 0), Decimal(0, 0, 0), 15)
    case Ring => Oklch(Decimal(0, 556, 3), Decimal(0, 0, 0), Decimal(0, 0, 0))
    case Chart1 => Oklch(Decimal(0, 488, 3), Decimal(0, 243, 3), Decimal(264, 376, 3))
    case Chart2 => Oklch(Decimal(0, 696, 3), Decimal(0, 17, 2), Decimal(162, 48, 2))
    case Chart3 => Oklch(Decimal(0, 769, 3), Decimal(0, 188, 3), Decimal(70, 8, 2))
    case Chart4 => Oklch(Decimal(0, 627, 3), Decimal(0, 265, 3), Decimal(303, 9, 1))
    case Chart5 => Oklch(Decimal(0, 645, 3), Decimal(0, 246, 3), Decimal(16, 439, 3))
    case Sidebar => Oklch(Decimal(0, 26, 2), Decimal(0, 0, 0), Decimal(0, 0, 0))
    case SidebarForeground => Oklch(Decimal(0, 985, 3), Decimal(0, 0, 0), Decimal(0, 0, 0))
    case SidebarPrimary => Oklch(Decimal(0, 488, 3), Decimal(0, 243, 3), Decimal(264, 376, 3))
    case SidebarPrimaryForeground => Oklch(Decimal(0, 985, 3), Decimal(0, 0, 0), Decimal(0, 0, 0))
    case SidebarAccent => Oklch(Decimal(0, 3, 1), Decimal(0, 0, 0), Decimal(0, 0, 0))
    case SidebarAccentForeground => Oklch(Decimal(0, 985, 3), Decimal(0, 0, 0), Decimal(0, 0, 0))
    case SidebarBorder => OklchAlpha(Decimal(1, 0, 0), Decimal(0, 0, 0), Decimal(0, 0, 0), 10)
    case SidebarRing => Oklch(Decimal(0, 556, 3), Decimal(0, 0, 0), Decimal(0, 0, 0))
    case AbsenceF => Oklch(Decimal(0, 35, 2), Decimal(0, 12, 2), Decimal(15, 0, 0))
    case AbsenceFText => Oklch(Decimal(0, 85, 2), Decimal(0, 8, 2), Decimal(15, 0, 0))
    case AbsenceJ => Oklch(Decimal(0, 35, 2), Decimal(0, 12, 2), Decimal(155, 0, 0))
    case AbsenceJText => Oklch(Decimal(0, 85, 2), Decimal(0, 8, 2), Decimal(155, 0, 0))
    case AbsenceC => Oklch(Decimal(0, 35, 2), Decimal(0, 1, 1), Decimal(180, 0, 0))
    case AbsenceCText => Oklch(Decimal(0, 85, 2), Decimal(0, 8, 2), Decimal(180, 0, 0))
    case AbsenceE => Oklch(Decimal(0, 35, 2), Decimal(0, 12, 2), Decimal(300, 0, 0))
    case AbsenceEText => Oklch(Decimal(0, 85, 2), Decimal(0, 8, 2), Decimal(300, 0, 0))
    case AbsenceR => Oklch(Decimal(0, 35, 2), Decimal(0, 12, 2), Decimal(70, 0, 0))
    case AbsenceRText => Oklch(Decimal(0, 85, 2), Decimal(0, 8, 2), Decimal(70, 0, 0))
    case AbsenceH => Oklch(Decimal(0, 35, 2), Decimal(0, 0, 0), Decimal(0, 0, 0))
    case AbsenceHText => Oklch(Decimal(0, 85, 2), Decimal(0, 0, 0), Decimal(0, 0, 0))
    case Module1 => Oklch(Decimal(0, 55, 2), Decimal(0, 18, 2), Decimal(250, 0, 0))
    case Module2 => Oklch(Decimal(0, 55, 2), Decimal(0, 18, 2), Decimal(145, 0, 0))
    case Module3 => Oklch(Decimal(0, 60, 2), Decimal(0, 18, 2), Decimal(85, 0, 0))
    case Module4 => Oklch(Decimal(0, 55, 2), Decimal(0, 18, 2), Decimal(350, 0, 0))
    case Module5 => Oklch(Decimal(0, 55, 2), Decimal(0, 18, 2), Decimal(200, 0, 0))
    case Module6 => Oklch(Decimal(0, 55, 2), Decimal(0, 18, 2), Decimal(130, 0, 0))
    case Module7 => Oklch(Decimal(0, 50, 2), Decimal(0, 18, 2), Decimal(270, 0, 0))
    case Module8 => Oklch(Decimal(0, 55, 2), Decimal(0, 18, 2), Decimal(50, 0, 0))
    case Module9 => Oklch(Decimal(0, 52, 2), Decimal(0, 20, 2), Decimal(320, 0, 0))
    case Module10 => Oklch(Decimal(0, 57, 2), Decimal(0, 16, 2), Decimal(220, 0, 0))
  }

  /** The `blue` preset. */
  const BlueLight: map<ColorKey, Shade> := map[
        Primary := Oklch(Decimal(0, 5, 1), Decimal(0, 17, 2), Decimal(250, 0, 0)),
        PrimaryForeground := Oklch(Decimal(0, 985, 3), Decimal(0, 0, 0), Decimal(0, 0, 0)),
        SidebarPrimary := Oklch(Decimal(0, 5, 1), Decimal(0, 17, 2), Decimal(250, 0, 0)),
        Chart1 := Oklch(Decimal(0, 6, 1), Decimal(0, 2, 1), Decimal(250, 0, 0)),
        Chart2 := Oklch(Decimal(0, 65, 2), Decimal(0, 15, 2), Decimal(220, 0, 0)),
        Chart3 := Oklch(Decimal(0, 55, 2), Decimal(0, 18, 2), Decimal(270, 0, 0))
  ]

  const BlueDark: map<ColorKey, Shade> := map[
        Primary := Oklch(Decimal(0, 65, 2), Decimal(0, 2, 1), Decimal(250, 0, 0)),
        SidebarPrimary := Oklch(Decimal(0, 65, 2), Decimal(0, 2, 1), Decimal(250, 0, 0)),
        Chart1 := Oklch(Decimal(0, 65, 2), Decimal(0, 22, 2), Decimal(250, 0, 0)),
        Chart2 := Oklch(Decimal(0, 7, 1), Decimal(0, 17, 2), Decimal(220, 0, 0)),
        Chart3 := Oklch(Decimal(0, 6, 1), Decimal(0, 2, 1), Decimal(270, 0, 0))
  ]
  /** The `green` preset. */
  const GreenLight: map<ColorKey, Shade> := map[
        Primary := Oklch(Decimal(0, 5, 1), Decimal(0, 15, 2), Decimal(145, 0, 0)),
        PrimaryForeground := Oklch(Decimal(0, 985, 3), Decimal(0, 0, 0), Decimal(0, 0, 0)),
        SidebarPrimary := Oklch(Decimal(0, 5, 1), Decimal(0, 15, 2), Decimal(145, 0, 0)),
        Chart1 := Oklch(Decimal(0, 6, 1), Decimal(0, 18, 2), Decimal(145, 0, 0)),
        Chart2 := Oklch(Decimal(0, 65, 2), Decimal(0, 14, 2), Decimal(120, 0, 0)),
        Chart3 := Oklch(Decimal(0, 55, 2), Decimal(0, 16, 2), Decimal(170, 0, 0))
  ]

  const GreenDark: map<ColorKey, Shade> := map[
        Primary := Oklch(Decimal(0, 65, 2), Decimal(0, 18, 2), Decimal(145, 0, 0)),
        SidebarPrimary := Oklch(Decimal(0, 65, 2), Decimal(0, 18, 2), Decimal(145, 0, 0)),
        Chart1 := Oklch(Decimal(0, 65, 2), Decimal(0, 2, 1), Decimal(145, 0, 0)),
        Chart2 := Oklch(Decimal(0, 7, 1), Decimal(0, 16, 2), Decimal(120, 0, 0)),
        Chart3 := Oklch(Decimal(0, 6, 1), Decimal(0, 18, 2), Decimal(170, 0, 0))
  ]
  /** The `purple` preset. */
  const PurpleLight: map<ColorKey, Shade> := map[
        Primary := Oklch(Decimal(0, 5, 1), Decimal(0, 18, 2), Decimal(300, 0, 0)),
        PrimaryForeground := Oklch(Decimal(0, 985, 3), Decimal(0, 0, 0), Decimal(0, 0, 0)),
        SidebarPrimary := Oklch(Decimal(0, 5, 1), Decimal(0, 18, 2), Decimal(300, 0, 0)),
        Chart1 := Oklch(Decimal(0, 6, 1), Decimal(0, 2, 1), Decimal(300, 0, 0)),
        Chart2 := Oklch(Decimal(0, 65, 2), Decimal(0, 16, 2), Decimal(280, 0, 0)),
        Chart3 := Oklch(Decimal(0, 55, 2), Decimal(0, 19, 2), Decimal(320, 0, 0))
  ]

  const PurpleDark: map<ColorKey, Shade> := map[
        Primary := Oklch(Decimal(0, 65, 2), Decimal(0, 2, 1), Decimal(300, 0, 0)),
        SidebarPrimary := Oklch(Decimal(0, 65, 2), Decimal(0, 2, 1), Decimal(300, 0, 0)),
        Chart1 := Oklch(Decimal(0, 65, 2), Decimal(0, 22, 2), Decimal(300, 0, 0)),
        Chart2 := Oklch(Decimal(0, 7, 1), Decimal(0, 18, 2), Decimal(280, 0, 0)),
        Chart3 := Oklch(Decimal(0, 6, 1), Decimal(0, 21, 2), Decimal(320, 0, 0))
  ]
  /** The `orange` preset. */
  const OrangeLight: map<ColorKey, Shade> := map[
        Primary := Oklch(Decimal(0, 55, 2), Decimal(0, 16, 2), Decimal(45, 0, 0)),
        PrimaryForeground := Oklch(Decimal(0, 985, 3), Decimal(0, 0, 0), Decimal(0, 0, 0)),
        SidebarPrimary := Oklch(Decimal(0, 55, 2), Decimal(0, 16, 2), Decimal(45, 0, 0)),
        Chart1 := Oklch(Decimal(0, 65, 2), Decimal(0, 18, 2), Decimal(45, 0, 0)),
        Chart2 := Oklch(Decimal(0, 7, 1), Decimal(0, 15, 2), Decimal(30, 0, 0)),
        Chart3 := Oklch(Decimal(0, 6, 1), Decimal(0, 17, 2), Decimal(60, 0, 0))
  ]

  const OrangeDark: map<ColorKey, Shade> := map[
        Primary := Oklch(Decimal(0, 7, 1), Decimal(0, 18, 2), Decimal(45, 0, 0)),
        SidebarPrimary := Oklch(Decimal(0, 7, 1), Decimal(0, 18, 2), Decimal(45, 0, 0)),
        Chart1 := Oklch(Decimal(0, 7, 1), Decimal(0, 2, 1), Decimal(45, 0, 0)),
        Chart2 := Oklch(Decimal(0, 75, 2), Decimal(0, 17, 2), Decimal(30, 0, 0)),
        Chart3 := Oklch(Decimal(0, 65, 2), Decimal(0, 19, 2), Decimal(60, 0, 0))
  ]
  /** The keys a system preset changes in light mode... */
  const LightOverridable: set<ColorKey> := {Primary, PrimaryForeground, SidebarPrimary, Chart1, Chart2, Chart3}

  /** ... and in dark mode. */
  const DarkOverridable: set<ColorKey> := {Primary, SidebarPrimary, Chart1, Chart2, Chart3}

  function DefaultLight(k: ColorKey): string { ShadeText(LightShade(k)) }
  function DefaultDark(k: ColorKey): string { ShadeText(DarkShade(k)) }

  /** `{ ...DEFAULT_LIGHT_COLORS, ...light }` and the same for dark. */
  function SystemPreset(id: string, name: string, description: string,
                        light: map<ColorKey, Shade>, dark: map<ColorKey, Shade>): ThemePreset
  {
    ThemePreset(id, name, description, Spread(DefaultLight, Texts(light)), Spread(DefaultDark, Texts(dark)), None)
  }

  const DefaultPreset: ThemePreset := ThemePreset("default", "Default", "The default neutral theme", DefaultLight, DefaultDark, None)

  /** `THEME_PRESETS` */
  const ThemePresets: seq<ThemePreset> := [
    DefaultPreset,
    SystemPreset("blue", "Blue", "A professional blue theme", BlueLight, BlueDark),
    SystemPreset("green", "Green", "A fresh green theme", GreenLight, GreenDark),
    SystemPreset("purple", "Purple", "A creative purple theme", PurpleLight, PurpleDark),
    SystemPreset("orange", "Orange", "A warm orange theme", OrangeLight, OrangeDark)
  ]

  // ---- reading the constants ----

  lemma NumTextAppend(a: string, b: string)
    requires ThemeUtils.NumText(a) && ThemeUtils.NumText(b)
    ensures ThemeUtils.NumText(a + b)
  {
    assert forall i :: 0 <= i < |a| + |b| ==> (a + b)[i] == if i < |a| then a[i] else b[i - |a|];
  }

  lemma DigitsAreNumText(s: string)
    requires AllDigits(s) && |s| > 0
    ensures ThemeUtils.NumText(s)
  {
  }

  /** A component's text is a number that `parseFloat` reads as its value. */
  lemma CompRead(x: Comp)
    ensures ThemeUtils.NumText(CompText(x))
    ensures ThemeUtils.ParseFloat(CompText(x)) == Finite(CompValue(x))
  {
    var w := NatToString(x.whole);
    NatToStringValue(x.whole);
    DigitsAreNumText(w);
    if x.places == 0 {
      assert w + "" == w;
      ThemeUtils.ParseFloatWhole(w, "");
    } else {
      var f := FracText(x.frac, x.places);
      assert f + "" == f;
      ThemeUtils.ParseFloatDecimal(w, f, "");
      DigitsAreNumText(f);
      assert ThemeUtils.NumText(".");
      NumTextAppend(".", f);
      NumTextAppend(w, "." + f);
    }
  }

  /** The integer test `AtMost` is the comparison of values. */
  lemma AtMostMeans(x: Comp, num: nat, den: nat)
    requires den > 0
    ensures AtMost(x, num, den) <==> CompValue(x) <= num as real / den as real
  {
    var big := Pow10(x.places);
    var whole := x.whole * big + x.frac;
    ValueAsQuotient(x);
    QuotientsCompare(whole as real, big as real, num as real, den as real);
    CastMul(den, whole);
    CastMul(num, big);
  }

  lemma ValueAsQuotient(x: Comp)
    ensures CompValue(x) == (x.whole * Pow10(x.places) + x.frac) as real / Pow10(x.places) as real
  {
    var p := Pow10(x.places) as real;
    CastMul(x.whole, Pow10(x.places));
    SplitQuotient(x.whole as real, x.frac as real, p);
  }

  lemma CastMul(a: nat, b: nat)
    ensures (a * b) as real == a as real * b as real
  {
  }

  lemma SplitQuotient(w: real, f: real, p: real)
    requires p > 0.0
    ensures (w * p + f) / p == w + f / p
  {
  }

  lemma QuotientsCompare(a: real, b: real, c: real, d: real)
    requires b > 0.0 && d > 0.0
    ensures a / b <= c / d <==> d * a <= c * b
  {
    assert a / b - c / d == (d * a - c * b) / (b * d);
  }

  /** The alpha percentage as `isValidOKLCH` reads it. */
  lemma AlphaRead(n: nat)
    ensures ThemeUtils.AlphaText(NatToString(n) + "%")
    ensures ThemeUtils.AlphaValue(NatToString(n) + "%") == Finite(n as real / 100.0)
  {
    var w := NatToString(n);
    NatToStringValue(n);
    DigitsAreNumText(w);
    ThemeUtils.ParseFloatWhole(w, "%");
    assert (w + "%")[..|w|] == w;
  }

  /** `isValidOKLCH` accepts a colour written from components exactly when
      the components are in range. */
  lemma ShadeValid(s: Shade)
    ensures ThemeUtils.IsValidOklch(ShadeText(s)) <==> InRange(s)
  {
    ShadeParses(s);
    ShadeRanges(s);
  }

  function LchOf(s: Shade): ThemeUtils.Lch
  {
    ThemeUtils.Lch(CompText(s.l), CompText(s.c), CompText(s.h))
  }

  lemma ShadeParses(s: Shade)
    ensures ShadeText(s) != ""
    ensures ThemeUtils.ParseOklch(ShadeText(s)) == Some((LchOf(s), AlphaOf(s)))
  {
    CompRead(s.l);
    CompRead(s.c);
    CompRead(s.h);
    if s.alphaPercent.Some? {
      AlphaRead(s.alphaPercent.value);
    }
    ThemeUtils.ParseRender(LchOf(s), AlphaOf(s));
  }

  lemma ShadeRanges(s: Shade)
    ensures ThemeUtils.RangesAsWritten(LchOf(s), AlphaOf(s)) <==> InRange(s)
  {
    CompInRange(s.l, 1, 1, 1.0);
    CompInRange(s.c, 1, 2, 0.5);
    CompInRange(s.h, 360, 1, 360.0);
    if s.alphaPercent.Some? {
      AlphaInRange(s.alphaPercent.value);
    }
  }

  lemma CompInRange(x: Comp, num: nat, den: nat, hi: real)
    requires den > 0 && hi == num as real / den as real
    ensures ThemeUtils.NotOutside(ThemeUtils.ParseFloat(CompText(x)), 0.0, hi) <==> AtMost(x, num, den)
  {
    CompRead(x);
    AtMostMeans(x, num, den);
  }

  lemma AlphaInRange(n: nat)
    ensures ThemeUtils.NotOutside(ThemeUtils.AlphaValue(NatToString(n) + "%"), 0.0, 1.0) <==> n <= 100
  {
    AlphaRead(n);
  }

  // ---- the tables ----

  predicate AllInRange(m: map<ColorKey, Shade>) {
    forall k :: k in m ==> InRange(m[k])
  }

  /** Bounds on the components, read off their digits, that imply
      `InRange`. */
  predicate Tame(s: Shade) {
    (s.l.whole == 0 || (s.l.whole == 1 && s.l.frac == 0))
    && s.c.whole == 0 && 2 * s.c.frac <= Pow10(s.c.places)
    && s.h.whole < 360
    && (s.alphaPercent.Some? ==> s.alphaPercent.value <= 100)
  }

  lemma TameInRange(s: Shade)
    requires Tame(s)
    ensures InRange(s)
  {
    LightnessAtMost(s.l.whole, s.l.frac, Pow10(s.l.places));
    HueAtMost(s.h.whole, s.h.frac, Pow10(s.h.places));
  }

  lemma LightnessAtMost(w: nat, f: nat, p: nat)
    requires f < p && (w == 0 || (w == 1 && f == 0))
    ensures w * p + f <= p
  {
  }

  lemma HueAtMost(w: nat, f: nat, p: nat)
    requires f < p && w < 360
    ensures w * p + f <= 360 * p
  {
    assert w * p <= 359 * p;
  }

  predicate AllTame(m: map<ColorKey, Shade>) {
    forall k :: k in m ==> Tame(m[k])
  }

  lemma AllTameInRange(m: map<ColorKey, Shade>)
    requires AllTame(m)
    ensures AllInRange(m)
  {
    forall k | k in m
      ensures InRange(m[k])
    {
      TameInRange(m[k]);
    }
  }

  /** Every default light shade has its components in range. */
  lemma LightInRange(k: ColorKey)
    ensures InRange(LightShade(k))
  {
    TameInRange(LightShade(k));
  }

  /** Every default dark shade has its components in range. */
  lemma DarkInRange(k: ColorKey)
    ensures InRange(DarkShade(k))
  {
    TameInRange(DarkShade(k));
  }

  lemma BlueKeys()
    ensures BlueLight.Keys <= LightOverridable && BlueDark.Keys <= DarkOverridable
  {
  }

  lemma BlueInRange()
    ensures AllInRange(BlueLight) && AllInRange(BlueDark)
  {
    AllTameInRange(BlueLight);
    AllTameInRange(BlueDark);
  }

  lemma GreenKeys()
    ensures GreenLight.Keys <= LightOverridable && GreenDark.Keys <= DarkOverridable
  {
  }

  lemma GreenInRange()
    ensures AllInRange(GreenLight) && AllInRange(GreenDark)
  {
    AllTameInRange(GreenLight);
    AllTameInRange(GreenDark);
  }

  lemma PurpleKeys()
    ensures PurpleLight.Keys <= LightOverridable && PurpleDark.Keys <= DarkOverridable
  {
  }

  lemma PurpleInRange()
    ensures AllInRange(PurpleLight) && AllInRange(PurpleDark)
  {
    AllTameInRange(PurpleLight);
    AllTameInRange(PurpleDark);
  }

  lemma OrangeKeys()
    ensures OrangeLight.Keys <= LightOverridable && OrangeDark.Keys <= DarkOverridable
  {
  }

  lemma OrangeInRange()
    ensures AllInRange(OrangeLight) && AllInRange(OrangeDark)
  {
    AllTameInRange(OrangeLight);
    AllTameInRange(OrangeDark);
  }

  /** Every colour of a table in range is valid. */
  lemma TextsValid(m: map<ColorKey, Shade>)
    requires AllInRange(m)
    ensures forall k :: k in Texts(m) <==> k in m
    ensures forall k :: k in Texts(m) ==> ThemeUtils.IsValidOklch(Texts(m)[k])
  {
    forall k | k in m
      ensures ThemeUtils.IsValidOklch(Texts(m)[k])
    {
      ShadeValid(m[k]);
    }
  }

  /** Both palettes of a preset hold valid colours only. */
  predicate PresetValid(p: ThemePreset) {
    forall k :: ThemeUtils.IsValidOklch(p.light(k)) && ThemeUtils.IsValidOklch(p.dark(k))
  }

  lemma DefaultsValid()
    ensures forall k :: ThemeUtils.IsValidOklch(DefaultLight(k)) && ThemeUtils.IsValidOklch(DefaultDark(k))
  {
    forall k
      ensures ThemeUtils.IsValidOklch(DefaultLight(k)) && ThemeUtils.IsValidOklch(DefaultDark(k))
    {
      DefaultValidAt(k);
    }
  }

  lemma DefaultValidAt(k: ColorKey)
    ensures ThemeUtils.IsValidOklch(DefaultLight(k)) && ThemeUtils.IsValidOklch(DefaultDark(k))
  {
    LightInRange(k);
    DarkInRange(k);
    ShadeValid(LightShade(k));
    ShadeValid(DarkShade(k));
  }

  lemma SystemPresetValid(id: string, name: string, description: string,
                          light: map<ColorKey, Shade>, dark: map<ColorKey, Shade>)
    requires AllInRange(light) && AllInRange(dark)
    ensures PresetValid(SystemPreset(id, name, description, light, dark))
  {
    var p := SystemPreset(id, name, description, light, dark);
    TextsValid(light);
    TextsValid(dark);
    forall k
      ensures ThemeUtils.IsValidOklch(p.light(k)) && ThemeUtils.IsValidOklch(p.dark(k))
    {
      DefaultValidAt(k);
    }
  }

  /** Every colour constant is accepted by `isValidOKLCH`, as the comment on
      `ThemeColors` requires. */
  lemma PresetColorsValid()
    ensures forall i :: 0 <= i < |ThemePresets| ==> PresetValid(ThemePresets[i])
  {
    DefaultsValid();
    BlueInRange();
    GreenInRange();
    PurpleInRange();
    OrangeInRange();
    SystemPresetValid("blue", "Blue", "A professional blue theme", BlueLight, BlueDark);
    SystemPresetValid("green", "Green", "A fresh green theme", GreenLight, GreenDark);
    SystemPresetValid("purple", "Purple", "A creative purple theme", PurpleLight, PurpleDark);
    SystemPresetValid("orange", "Orange", "A warm orange theme", OrangeLight, OrangeDark);
  }

  /** A preset agrees with the defaults outside the overridable keys. */
  predicate OverridesOnly(p: ThemePreset) {
    forall k ::
      (k !in LightOverridable ==> p.light(k) == DefaultLight(k))
      && (k !in DarkOverridable ==> p.dark(k) == DefaultDark(k))
  }

  lemma SystemPresetOverrides(id: string, name: string, description: string,
                              light: map<ColorKey, Shade>, dark: map<ColorKey, Shade>)
    requires light.Keys <= LightOverridable && dark.Keys <= DarkOverridable
    ensures OverridesOnly(SystemPreset(id, name, description, light, dark))
  {
    assert forall k :: k in Texts(light) ==> k in light;
    assert forall k :: k in Texts(dark) ==> k in dark;
  }

  /** The preset ids are distinct, and the first preset is `default`, made
      of the default palettes. */
  lemma PresetIds()
    ensures |ThemePresets| == 5
    ensures forall i, j :: 0 <= i < j < |ThemePresets| ==> ThemePresets[i].id != ThemePresets[j].id
    ensures ThemePresets[0] == DefaultPreset && DefaultPreset.id == "default"
    ensures forall i :: 0 <= i < |ThemePresets| ==> |ThemePresets[i].id| > 0 && ThemePresets[i].id[0] == "dbgpo"[i]
  {
    assert forall i :: 0 <= i < |ThemePresets| ==> ThemePresets[i].id[0] == "dbgpo"[i];
  }

  /** The system presets change only the primary, sidebar primary and first
      three chart colours of the defaults, and the primary foreground in
      light mode. */
  lemma PresetOverrides()
    ensures forall i :: 0 <= i < |ThemePresets| ==> OverridesOnly(ThemePresets[i])
  {
    forall i | 0 <= i < |ThemePresets|
      ensures OverridesOnly(ThemePresets[i])
    {
      if i == 1 {
        BlueOverrides();
      } else if i == 2 {
        GreenOverrides();
      } else if i == 3 {
        PurpleOverrides();
      } else if i == 4 {
        OrangeOverrides();
      } else {
        DefaultOverridesNothing();
      }
    }
  }

  lemma DefaultOverridesNothing()
    ensures OverridesOnly(ThemePresets[0])
  {
  }

  lemma BlueOverrides()
    ensures OverridesOnly(ThemePresets[1])
  {
    BlueKeys();
    SystemPresetOverrides("blue", "Blue", "A professional blue theme", BlueLight, BlueDark);
  }

  lemma GreenOverrides()
    ensures OverridesOnly(ThemePresets[2])
  {
    GreenKeys();
    SystemPresetOverrides("green", "Green", "A fresh green theme", GreenLight, GreenDark);
  }

  lemma PurpleOverrides()
    ensures OverridesOnly(ThemePresets[3])
  {
    PurpleKeys();
    SystemPresetOverrides("purple", "Purple", "A creative purple theme", PurpleLight, PurpleDark);
  }

  lemma OrangeOverrides()
    ensures OverridesOnly(ThemePresets[4])
  {
    OrangeKeys();
    SystemPresetOverrides("orange", "Orange", "A warm orange theme", OrangeLight, OrangeDark);
  }
}
