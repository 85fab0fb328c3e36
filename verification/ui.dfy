/** The colour helpers of `lib/utils/ui.ts`: the three percentage buckets
    and their palettes, the inline styles of absence cells and the hashed
    colour of a module. */
module Ui {
  import opened Wrappers
  import opened JsString

  /** The three bands every percentage view uses. */
  datatype Bucket = Low | Medium | High

  /** Below 7 is low, from 7 up to (not including) 14 medium, the rest high. */
  function BucketOf(percent: real): (b: Bucket)
    ensures b == Low <==> percent < 7.0
    ensures b == High <==> percent >= 14.0
  {
    if percent < 7.0 then Low else if percent < 14.0 then Medium else High
  }

  datatype ColorClasses = ColorClasses(gradient: string, text: string)

  /** The Tailwind classes of a band. */
  function ClassesOfBucket(b: Bucket): ColorClasses {
    match b
    case Low => ColorClasses("from-emerald-500 to-teal-600", "text-emerald-600")
    case Medium => ColorClasses("from-amber-500 to-orange-600", "text-amber-600")
    case High => ColorClasses("from-red-500 to-pink-600", "text-red-600")
  }

  /** Reads back the band a gradient class was chosen for. */
  function BucketOfGradient(gradient: string): Option<Bucket> {
    if gradient == "from-emerald-500 to-teal-600" then Some(Low)
    else if gradient == "from-amber-500 to-orange-600" then Some(Medium)
    else if gradient == "from-red-500 to-pink-600" then Some(High)
    else None
  }

  /** `percentColorClasses`: emerald below 7, amber below 14, red otherwise;
      the gradient and the text class always name the same band. */
  function PercentColorClasses(percent: real): (r: ColorClasses)
    ensures BucketOfGradient(r.gradient) == Some(BucketOf(percent))
    ensures r == ClassesOfBucket(BucketOf(percent))
  {
    var gradient := if percent < 7.0 then "from-emerald-500 to-teal-600"
                    else if percent < 14.0 then "from-amber-500 to-orange-600"
                    else "from-red-500 to-pink-600";
    var text := if percent < 7.0 then "text-emerald-600"
                else if percent < 14.0 then "text-amber-600"
                else "text-red-600";
    ColorClasses(gradient, text)
  }

  datatype HexColors = HexColors(startColor: string, endColor: string)

  /** Reads back the band a pair of hex colours was chosen for. */
  function BucketOfHex(c: HexColors): Option<Bucket> {
    if c == HexColors("#10B981", "#0D9488") then Some(Low)
    else if c == HexColors("#F59E0B", "#EA580C") then Some(Medium)
    else if c == HexColors("#EF4444", "#DB2777") then Some(High)
    else None
  }

  /** `getPercentageColors`: the hex pair of the band the same percentage
      falls in for `percentColorClasses`. */
  function GetPercentageColors(percentage: real): (r: HexColors)
    ensures BucketOfHex(r) == Some(BucketOf(percentage))
    ensures BucketOfHex(r) == BucketOfGradient(PercentColorClasses(percentage).gradient)
  {
    if percentage < 7.0 then HexColors("#10B981", "#0D9488")
    else if percentage < 14.0 then HexColors("#F59E0B", "#EA580C")
    else HexColors("#EF4444", "#DB2777")
  }

  const GradientPrefix: string := "bg-gradient-to-r "

  /** `getPercentageGradientClass`: the utility class followed by the
      band's gradient. */
  function GetPercentageGradientClass(percentage: real): (r: string)
    ensures |r| > |GradientPrefix| && r[..|GradientPrefix|] == GradientPrefix
    ensures BucketOfGradient(r[|GradientPrefix|..]) == Some(BucketOf(percentage))
  {
    var g := PercentColorClasses(percentage).gradient;
    assert (GradientPrefix + g)[|GradientPrefix|..] == g;
    GradientPrefix + g
  }

  /** The inline style of an absence cell. */
  datatype AbsenceStyle = AbsenceStyle(backgroundColor: string, color: string, borderColor: string)

  function CssVar(name: string): string { "var(" + name + ")" }

  /** `absenceColorStyle`: no style (`{}`) for a missing or empty code;
      otherwise background and border use `--absence-<code>` and the text
      `--absence-<code>-text`, with the code lower-cased. */
  function AbsenceColorStyle(code: Option<string>): (r: Option<AbsenceStyle>)
    ensures r.None? <==> code.None? || code.value == ""
    ensures r.Some? ==> r.value.backgroundColor == r.value.borderColor
    ensures r.Some? ==>
      r.value.backgroundColor == CssVar("--absence-" + ToLower(code.value)) &&
      r.value.color == CssVar("--absence-" + ToLower(code.value) + "-text")
  {
    if code.None? || code.value == "" then None
    else
      var colorVar := "--absence-" + ToLower(code.value);
      Some(AbsenceStyle(CssVar(colorVar), CssVar(colorVar + "-text"), CssVar(colorVar)))
  }

  /** The legacy `absenceColorClass`, kept for old callers. */
  function AbsenceColorClass(code: Option<string>): (r: string)
    ensures |r| == 0
  {
    ""
  }

  /** The legacy `moduleColorClass`, kept for old callers. */
  function ModuleColorClass(mod: Option<string>): (r: string)
    ensures |r| == 0
  {
    ""
  }

  // ---- the module hash ----

  const TwoTo32: nat := 0x1_0000_0000

  /** `(hash * 31 + mod.charCodeAt(i)) >>> 0` folded over the name from the
      left: the unsigned 32-bit rolling hash. */
  function HashOf(s: string): (h: nat)
    ensures h < TwoTo32
  {
    if |s| == 0 then 0 else (HashOf(s[..|s| - 1]) * 31 + s[|s| - 1] as int) % TwoTo32
  }

  /** The loop of `moduleColorStyle`, one character at a time. */
  method ModuleHash(mod: string) returns (hash: nat)
    ensures hash == HashOf(mod) && hash < TwoTo32
  {
    hash := 0;
    var i := 0;
    while i < |mod|
      invariant 0 <= i <= |mod|
      invariant hash == HashOf(mod[..i])
    {
      assert mod[..i + 1][..i] == mod[..i];
      hash := (hash * 31 + mod[i] as int) % TwoTo32;
      i := i + 1;
    }
    assert mod[..i] == mod;
  }

  /** The module colour slot, 1 to 10. */
  function ModuleSlot(mod: string): (n: nat)
    ensures 1 <= n <= 10
  {
    HashOf(mod) % 10 + 1
  }

  /** `moduleColorStyle`, its `backgroundColor`: the page background for a
      missing or empty name, otherwise one of the ten `--moduleN` colours,
      always the same one for the same name. */
  function ModuleColorStyle(mod: Option<string>): (r: string)
    ensures mod.None? || mod.value == "" ==> r == CssVar("--background")
    ensures mod.Some? && mod.value != "" ==>
      exists n :: 1 <= n <= 10 && n == ModuleSlot(mod.value) && r == CssVar("--module" + NatToString(n))
  {
    if mod.None? || mod.value == "" then CssVar("--background")
    else CssVar("--module" + NatToString(ModuleSlot(mod.value)))
  }

  lemma CssVarText(x: string)
    ensures CssVar(x)[4..|CssVar(x)| - 1] == x
  {
  }

  /** Distinct slots give distinct styles: the ten names never collide. */
  lemma ModuleStylesDistinct(a: string, b: string)
    requires a != "" && b != "" && ModuleSlot(a) != ModuleSlot(b)
    ensures ModuleColorStyle(Some(a)) != ModuleColorStyle(Some(b))
  {
    var na, nb := NatToString(ModuleSlot(a)), NatToString(ModuleSlot(b));
    NatToStringValue(ModuleSlot(a));
    NatToStringValue(ModuleSlot(b));
    var sa, sb := "--module" + na, "--module" + nb;
    CssVarText(sa);
    CssVarText(sb);
    assert sa[8..] == na && sb[8..] == nb;
  }
}
