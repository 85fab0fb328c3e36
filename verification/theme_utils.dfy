/** `lib/utils/themeUtils.ts`: checking that a colour is written in OKLCH
    notation with its components in range, and describing a colour in
    words. The regular expressions are modelled as scanners; each is
    deterministic, because white space and the number characters
    `[\d.]` never overlap. */
module ThemeUtils {
  import opened Wrappers
  import opened JsString
  import opened Num

  /** `[\d.]` */
  predicate IsNumChar(c: char) { IsDigit(c) || c == '.' }

  /** `[\d.]+` as a whole. */
  predicate NumText(s: string) { |s| > 0 && forall i :: 0 <= i < |s| ==> IsNumChar(s[i]) }

  function SpaceRun(t: string): (n: nat)
    ensures n <= |t|
  {
    RunLength(t, IsJsSpace)
  }

  function NumRun(t: string): (n: nat)
    ensures n <= |t|
  {
    RunLength(t, IsNumChar)
  }

  // ---- parseFloat ----

  /** `parseFloat(s)` for text starting with `[\d.]`: the longest prefix of
      the form `digits [. digits]` with a digit somewhere, and `NaN` when
      there is none (`"."`, `".."`). Anything after the prefix is ignored. */
  function ParseFloat(s: string): (r: Number)
    ensures r.Finite? ==> r.value >= 0.0
    ensures !r.Infinite?
  {
    var n := DigitRun(s);
    if n < |s| && s[n] == '.' then
      var f := s[n + 1..];
      var m := DigitRun(f);
      if n == 0 && m == 0 then NaN else Finite(DecimalValue(s[..n], f[..m]))
    else if n == 0 then NaN
    else Finite(DigitsValue(s[..n]) as real)
  }

  /** A plain decimal reads as its value, whatever follows it that is
      neither a digit nor a second decimal part. */
  lemma ParseFloatDecimal(w: string, f: string, rest: string)
    requires AllDigits(w) && AllDigits(f) && (|w| > 0 || |f| > 0)
    requires |rest| > 0 ==> !IsDigit(rest[0])
    ensures ParseFloat(w + ("." + (f + rest))) == Finite(DecimalValue(w, f))
  {
    PointAfter(w, f + rest);
    RunLengthDigits(f, rest);
    assert (f + rest)[..|f|] == f;
  }

  /** Digits, a point, and then `t`. */
  lemma PointAfter(w: string, t: string)
    requires AllDigits(w)
    ensures var s := w + ("." + t); DigitRun(s) == |w| && s[|w|] == '.' && s[..|w|] == w && s[|w| + 1..] == t
  {
    RunLengthDigits(w, "." + t);
    assert (w + ("." + t))[|w| + 1..] == t;
  }

  lemma ParseFloatWhole(w: string, rest: string)
    requires AllDigits(w) && |w| > 0
    requires |rest| > 0 ==> !IsDigit(rest[0]) && rest[0] != '.'
    ensures ParseFloat(w + rest) == Finite(DigitsValue(w) as real)
  {
    RunLengthDigits(w, rest);
    assert (w + rest)[..|w|] == w;
  }

  lemma RunLengthDigits(a: string, b: string)
    requires AllDigits(a)
    requires |b| > 0 ==> !IsDigit(b[0])
    ensures DigitRun(a + b) == |a|
  {
    var n := DigitRun(a + b);
    assert forall i :: 0 <= i < |a| ==> (a + b)[i] == a[i];
    assert |b| > 0 ==> (a + b)[|a|] == b[0];
    assert forall i :: 0 <= i < n ==> (a + b)[..n][i] == (a + b)[i];
  }

  /** A lone point is not a number. */
  lemma PointIsNaN()
    ensures ParseFloat(".") == NaN
  {
    assert DigitRun(".") == 0;
    assert "."[1..] == "";
  }

  /** JavaScript's `<` and `>` against a constant: false for `NaN`. */
  predicate Below(v: Number, x: real) { v.Finite? && v.value < x }
  predicate Above(v: Number, x: real) { v.Finite? && v.value > x }

  /** `!(v < lo || v > hi)` */
  predicate NotOutside(v: Number, lo: real, hi: real) { !Below(v, lo) && !Above(v, hi) }

  // ---- the OKLCH pattern ----

  /** Lightness, chroma and hue as written. */
  datatype Lch = Lch(l: string, c: string, h: string)

  /** `\s*([\d.]+)` (with `\s+` when `space` is required) at the start of
      `t`: the number and the text after it. */
  function NextNumber(t: string, space: bool): (r: Option<(string, string)>)
    ensures r.Some? ==> NumText(r.value.0) && |r.value.1| < |t|
    ensures r.Some? ==> |r.value.1| > 0 ==> !IsNumChar(r.value.1[0])
  {
    var k := SpaceRun(t);
    var u := t[k..];
    var n := NumRun(u);
    if (space && k == 0) || n == 0 then None else Some((u[..n], u[n..]))
  }

  /** `\s*([\d.]+)\s+([\d.]+)\s+([\d.]+)` at the start of `t`. */
  function ThreeNumbers(t: string): (r: Option<(Lch, string)>)
    ensures r.Some? ==> NumText(r.value.0.l) && NumText(r.value.0.c) && NumText(r.value.0.h)
  {
    var a := NextNumber(t, false);
    if a.None? then None
    else
      var b := NextNumber(a.value.1, true);
      if b.None? then None
      else
        var c := NextNumber(b.value.1, true);
        if c.None? then None else Some((Lch(a.value.0, b.value.0, c.value.0), c.value.1))
  }

  /** `\s*\)$`: only white space before the closing parenthesis, which
      ends the text. */
  predicate Closes(t: string) {
    t[SpaceRun(t)..] == ")"
  }

  /** `\s*([\d.]+%?)\s*\)$` after the slash: the alpha, with its `%`. */
  function AlphaAfterSlash(v: string): (r: Option<string>)
    ensures r.Some? ==> |r.value| > 0
  {
    var a := NextNumber(v, false);
    if a.None? then None
    else
      var num := a.value.0;
      var rest := a.value.1;
      var pct := |rest| > 0 && rest[0] == '%';
      var after := if pct then rest[1..] else rest;
      if !Closes(after) then None
      else if pct then Some(num + "%")
      else Some(num)
  }

  /** `(?:\s*\/\s*([\d.]+%?))?\s*\)$` on what follows the hue: `Some(None)`
      without an alpha, `Some(Some(a))` with one, `None` when it does not
      match. */
  function AlphaTail(t: string): (r: Option<Option<string>>)
    ensures r.Some? && r.value.Some? ==> |r.value.value| > 0
  {
    var u := t[SpaceRun(t)..];
    if u == ")" then Some(None)
    else if |u| > 0 && u[0] == '/' then
      var a := AlphaAfterSlash(u[1..]);
      if a.None? then None else Some(a)
    else None
  }

  /** The captures of the two regular expressions of `isValidOKLCH` on the
      trimmed input, when it matches. */
  function ParseOklch(color: string): (r: Option<(Lch, Option<string>)>)
    ensures r.Some? ==> StartsWith(Trim(color), "oklch(")
  {
    var n := Trim(color);
    if !StartsWith(n, "oklch(") then None
    else
      var three := ThreeNumbers(n[6..]);
      if three.None? then None
      else
        var tail := AlphaTail(three.value.1);
        if tail.None? then None else Some((three.value.0, tail.value))
  }

  /** The alpha as a fraction: a percentage is divided by 100. */
  function AlphaValue(a: string): (r: Number)
    ensures !r.Infinite?
  {
    if |a| > 0 && a[|a| - 1] == '%' then
      var v := ParseFloat(a);
      if v.Finite? then Finite(v.value / 100.0) else v
    else ParseFloat(a)
  }

  /** The range checks of `isValidOKLCH`, as written: each is a pair of
      comparisons, which `NaN` passes. */
  predicate RangesAsWritten(x: Lch, alpha: Option<string>) {
    NotOutside(ParseFloat(x.l), 0.0, 1.0)
    && NotOutside(ParseFloat(x.c), 0.0, 0.5)
    && NotOutside(ParseFloat(x.h), 0.0, 360.0)
    && (alpha.Some? ==> NotOutside(AlphaValue(alpha.value), 0.0, 1.0))
  }

  /** A component that reads as a number lies in `[lo, hi]`; one that does
      not read as a number is not constrained. */
  predicate InRangeIfNumber(v: Number, lo: real, hi: real) {
    v.Finite? ==> lo <= v.value <= hi
  }

  /** `isValidOKLCH(color)` as written: accepted exactly when the colour
      parses and every component that reads as a number, the alpha
      included, lies in its range. */
  function IsValidOklch(color: string): (r: bool)
    ensures r <==>
      color != "" && ParseOklch(color).Some?
      && InRangeIfNumber(ParseFloat(ParseOklch(color).value.0.l), 0.0, 1.0)
      && InRangeIfNumber(ParseFloat(ParseOklch(color).value.0.c), 0.0, 0.5)
      && InRangeIfNumber(ParseFloat(ParseOklch(color).value.0.h), 0.0, 360.0)
      && (ParseOklch(color).value.1.Some? ==> InRangeIfNumber(AlphaValue(ParseOklch(color).value.1.value), 0.0, 1.0))
    ensures r ==> color != "" && ParseOklch(color).Some?
    ensures r ==> var v := ParseFloat(ParseOklch(color).value.0.l); v.Finite? ==> 0.0 <= v.value <= 1.0
    ensures r ==> var v := ParseFloat(ParseOklch(color).value.0.c); v.Finite? ==> 0.0 <= v.value <= 0.5
    ensures r ==> var v := ParseFloat(ParseOklch(color).value.0.h); v.Finite? ==> 0.0 <= v.value <= 360.0
  {
    if color == "" then false
    else
      var p := ParseOklch(color);
      if p.None? then false
      else
        NotOutsideMeaning(ParseFloat(p.value.0.l), 0.0, 1.0);
        NotOutsideMeaning(ParseFloat(p.value.0.c), 0.0, 0.5);
        NotOutsideMeaning(ParseFloat(p.value.0.h), 0.0, 360.0);
        if p.value.1.Some? then
          NotOutsideMeaning(AlphaValue(p.value.1.value), 0.0, 1.0);
          RangesAsWritten(p.value.0, p.value.1)
        else
          RangesAsWritten(p.value.0, p.value.1)
  }

  /** The pair of comparisons rejects exactly a number outside the range. */
  lemma NotOutsideMeaning(v: Number, lo: real, hi: real)
    ensures NotOutside(v, lo, hi) <==> InRangeIfNumber(v, lo, hi)
  {
  }

  /** Each component reads as a number in its range. */
  predicate RangesIntended(x: Lch, alpha: Option<string>) {
    var l := ParseFloat(x.l);
    var c := ParseFloat(x.c);
    var h := ParseFloat(x.h);
    l.Finite? && 0.0 <= l.value <= 1.0
    && c.Finite? && 0.0 <= c.value <= 0.5
    && h.Finite? && 0.0 <= h.value <= 360.0
    && (alpha.Some? ==> AlphaValue(alpha.value).Finite? && 0.0 <= AlphaValue(alpha.value).value <= 1.0)
  }

  /** `isValidOKLCH` as evidently intended: components that are not numbers
      are refused too. */
  function IsValidOklchStrict(color: string): (r: bool)
    ensures r ==> IsValidOklch(color)
    ensures r <==> color != "" && ParseOklch(color).Some? && RangesIntended(ParseOklch(color).value.0, ParseOklch(color).value.1)
  {
    color != "" && ParseOklch(color).Some? && RangesIntended(ParseOklch(color).value.0, ParseOklch(color).value.1)
  }

  /** On a colour whose components are all numbers the two checks agree. */
  lemma StrictAgreesOnNumbers(color: string)
    requires IsValidOklch(color)
    requires var x := ParseOklch(color).value; ParseFloat(x.0.l).Finite? && ParseFloat(x.0.c).Finite? && ParseFloat(x.0.h).Finite?
    requires var x := ParseOklch(color).value; x.1.Some? ==> AlphaValue(x.1.value).Finite?
    ensures IsValidOklchStrict(color)
  {
  }

  // ---- writing a colour ----

  /** What follows the hue: ` / a)` or `)`. */
  function AlphaSuffix(alpha: Option<string>): (r: string)
    ensures |r| > 0 && r[0] != '.' && !IsDigit(r[0]) && r[|r| - 1] == ')'
  {
    if alpha.Some? then " " + ("/" + (" " + (alpha.value + ")"))) else ")"
  }

  /** `l c h` followed by `tail`. */
  function Body(x: Lch, tail: string): string {
    x.l + (" " + (x.c + (" " + (x.h + tail))))
  }

  /** `oklch(l c h)` or `oklch(l c h / a)`. */
  function Render(x: Lch, alpha: Option<string>): string {
    "oklch(" + Body(x, AlphaSuffix(alpha))
  }

  /** Alpha text: a number, possibly followed by `%`. */
  predicate AlphaText(a: string) {
    NumText(a) || (|a| > 1 && a[|a| - 1] == '%' && NumText(a[..|a| - 1]))
  }

  /** Reading a written colour gives back its components. */
  lemma ParseRender(x: Lch, alpha: Option<string>)
    requires NumText(x.l) && NumText(x.c) && NumText(x.h)
    requires alpha.Some? ==> AlphaText(alpha.value)
    ensures ParseOklch(Render(x, alpha)) == Some((x, alpha))
  {
    RenderShape(x, alpha);
    ThreeOf(x, AlphaSuffix(alpha));
    AlphaTailOf(alpha);
  }

  lemma RenderShape(x: Lch, alpha: Option<string>)
    requires NumText(x.l)
    ensures Trim(Render(x, alpha)) == Render(x, alpha)
    ensures StartsWith(Render(x, alpha), "oklch(")
    ensures Render(x, alpha)[6..] == Body(x, AlphaSuffix(alpha))
  {
    var s := Render(x, alpha);
    var t := AlphaSuffix(alpha);
    assert s[|s| - 1] == Body(x, t)[|Body(x, t)| - 1] == t[|t| - 1];
    TrimOfTrimmed(s);
  }

  /** A number followed by text that cannot continue it. */
  lemma NumAndRest(num: string, rest: string)
    requires NumText(num) && (|rest| > 0 ==> !IsNumChar(rest[0]))
    ensures NumRun(num + rest) == |num|
    ensures (num + rest)[..|num|] == num && (num + rest)[|num|..] == rest
  {
    RunLengthConcat(num, rest, IsNumChar);
  }

  lemma NumberFirst(num: string, rest: string)
    requires NumText(num) && (|rest| > 0 ==> !IsNumChar(rest[0]))
    ensures NextNumber(num + rest, false) == Some((num, rest))
  {
    var t := num + rest;
    assert !IsJsSpace(t[0]) by { assert t[0] == num[0]; }
    assert SpaceRun(t) == 0;
    NumAndRest(num, rest);
  }

  lemma SpacedNumber(num: string, rest: string, space: bool)
    requires NumText(num) && (|rest| > 0 ==> !IsNumChar(rest[0]))
    ensures NextNumber(" " + (num + rest), space) == Some((num, rest))
  {
    var t := " " + (num + rest);
    assert !IsJsSpace((num + rest)[0]) by { assert (num + rest)[0] == num[0]; }
    RunLengthConcat(" ", num + rest, IsJsSpace);
    assert t[1..] == num + rest;
    NumAndRest(num, rest);
  }

  lemma ThreeOf(x: Lch, tail: string)
    requires NumText(x.l) && NumText(x.c) && NumText(x.h)
    requires |tail| > 0 && !IsNumChar(tail[0])
    ensures ThreeNumbers(Body(x, tail)) == Some((x, tail))
  {
    var r3 := " " + (x.h + tail);
    var r2 := " " + (x.c + r3);
    NumberFirst(x.l, r2);
    SpacedNumber(x.c, r3, true);
    SpacedNumber(x.h, tail, true);
  }

  lemma AlphaTailOf(alpha: Option<string>)
    requires alpha.Some? ==> AlphaText(alpha.value)
    ensures AlphaTail(AlphaSuffix(alpha)) == Some(alpha)
  {
    if alpha.None? {
      ClosingParen();
    } else {
      SlashStep(" " + (alpha.value + ")"));
      AlphaOf(alpha.value);
    }
  }

  lemma AlphaOf(a: string)
    requires AlphaText(a)
    ensures AlphaAfterSlash(" " + (a + ")")) == Some(a)
  {
    if NumText(a) {
      AlphaNumber(a);
    } else {
      var num := a[..|a| - 1];
      assert a == num + "%";
      AlphaPercent(num);
    }
  }

  lemma ClosingParen()
    ensures SpaceRun(")") == 0 && Closes(")")
  {
  }

  /** After ` /` the alpha is read from the rest. */
  lemma SlashStep(v: string)
    ensures AlphaTail(" " + ("/" + v)) == if AlphaAfterSlash(v).None? then None else Some(AlphaAfterSlash(v))
  {
    var t := " " + ("/" + v);
    RunLengthConcat(" ", "/" + v, IsJsSpace);
    assert t[1..] == "/" + v;
    assert ("/" + v)[1..] == v;
  }

  lemma AlphaNumber(a: string)
    requires NumText(a)
    ensures AlphaAfterSlash(" " + (a + ")")) == Some(a)
  {
    SpacedNumber(a, ")", false);
    ClosingParen();
  }

  lemma AlphaPercent(num: string)
    requires NumText(num)
    ensures AlphaAfterSlash(" " + ((num + "%") + ")")) == Some(num + "%")
  {
    assert (num + "%") + ")" == num + "%)";
    SpacedNumber(num, "%)", false);
    assert "%)"[1..] == ")";
    ClosingParen();
  }

  /** `parseFloat` of a decimal `a.b` with one digit on each side, or of a
      whole number. */
  lemma ReadTenths(s: string, a: char, b: char)
    requires IsDigit(a) && IsDigit(b) && s == [a, '.', b]
    ensures ParseFloat(s) == Finite(DigitValue(a) as real + DigitValue(b) as real / 10.0)
  {
    assert s == [a] + ("." + ([b] + ""));
    ParseFloatDecimal([a], [b], "");
    assert [a][..0] == [] && [b][..0] == [];
    assert DigitsValue([a]) == DigitValue(a) && DigitsValue([b]) == DigitValue(b);
    assert Pow10(1) == 10;
  }

  lemma ReadHundreds(s: string, a: char, b: char, c: char, v: nat)
    requires IsDigit(a) && IsDigit(b) && IsDigit(c) && s == [a, b, c]
    requires v == 100 * DigitValue(a) + 10 * DigitValue(b) + DigitValue(c)
    ensures NumText(s) && ParseFloat(s) == Finite(v as real)
  {
    assert s[..2] == [a, b] && [a, b][..1] == [a] && [a][..0] == [];
    assert DigitsValue([a]) == DigitValue(a);
    assert DigitsValue([a, b]) == 10 * DigitValue(a) + DigitValue(b);
    ReadWhole(s, 100 * DigitValue(a) + 10 * DigitValue(b) + DigitValue(c));
  }

  lemma ReadWhole(s: string, v: nat)
    requires AllDigits(s) && |s| > 0 && DigitsValue(s) == v
    ensures ParseFloat(s) == Finite(v as real)
  {
    assert s == s + "";
    ParseFloatWhole(s, "");
  }

  /** A colour with components in range passes the check. */
  lemma ValidWhenInRange(x: Lch, alpha: Option<string>)
    requires NumText(x.l) && NumText(x.c) && NumText(x.h)
    requires alpha.Some? ==> AlphaText(alpha.value)
    requires RangesAsWritten(x, alpha)
    ensures IsValidOklch(Render(x, alpha))
  {
    ParseRender(x, alpha);
  }

  /** The examples of the documentation comment: `oklch(0.5 0.2 180)`. */
  lemma DocExampleHue()
    ensures IsValidOklch(Render(Lch("0.5", "0.2", "180"), None))
  {
    var x := Lch("0.5", "0.2", "180");
    HalfAndFifth(x.l, x.c);
    ReadHundreds(x.h, '1', '8', '0', 180);
    ValidWhenInRange(x, None);
  }

  /** `0.5` and `0.2`, the lightness and chroma of both examples. */
  lemma HalfAndFifth(l: string, c: string)
    requires l == "0.5" && c == "0.2"
    ensures NumText(l) && NumText(c)
    ensures ParseFloat(l) == Finite(0.5) && ParseFloat(c) == Finite(0.2)
  {
    ReadTenths(l, '0', '5');
    ReadTenths(c, '0', '2');
  }

  /** `oklch(1 0 0 / 50%)` */
  lemma DocExampleAlpha()
    ensures IsValidOklch(Render(Lch("1", "0", "0"), Some("50%")))
  {
    var x := Lch("1", "0", "0");
    ReadWhole(x.l, 1);
    ReadWhole(x.c, 0);
    ReadPercent("50%", "50", 50);
    assert NumText("50");
    ValidWhenInRange(x, Some("50%"));
  }

  lemma ReadPercent(s: string, w: string, v: nat)
    requires AllDigits(w) && |w| > 0 && DigitsValue(w) == v && s == w + "%"
    ensures AlphaValue(s) == Finite(v as real / 100.0)
  {
    ParseFloatWhole(w, "%");
  }

  /** `rgb(255, 0, 0)` is refused. */
  lemma DocExampleRgb()
    ensures !IsValidOklch("rgb(255, 0, 0)")
  {
    var rgb := "rgb(255, 0, 0)";
    TrimOfTrimmed(rgb);
    assert !StartsWith(rgb, "oklch(") by { assert rgb[0] != 'o'; }
  }

  /** Components that are no numbers at all, `oklch(. . .)`, pass the check
      as written, and not the intended one. */
  lemma NaNComponentsAccepted()
    ensures IsValidOklch(Render(Lch(".", ".", "."), None))
    ensures !IsValidOklchStrict(Render(Lch(".", ".", "."), None))
  {
    var x := Lch(".", ".", ".");
    PointIsNaN();
    ParseRender(x, None);
  }

  // ---- describing a colour ----

  datatype Lightness = VeryDark | Dark | Medium | Light | VeryLight
  datatype Chroma = Neutral | Muted | Saturated | Vivid
  datatype Hue = Red | Orange | Yellow | Green | Cyan | Blue | Purple | Gray

  datatype Description = Description(lightness: Lightness, chroma: Chroma, hue: Hue)

  function LightnessOf(v: Number): (r: Lightness)
    ensures r == VeryDark <==> Below(v, 0.3)
    ensures r == Dark <==> v.Finite? && 0.3 <= v.value < 0.5
    ensures r == Medium <==> v.Finite? && 0.5 <= v.value < 0.7
    ensures r == Light <==> v.Finite? && 0.7 <= v.value < 0.9
    ensures r == VeryLight <==> !Below(v, 0.9)
  {
    if Below(v, 0.3) then VeryDark
    else if Below(v, 0.5) then Dark
    else if Below(v, 0.7) then Medium
    else if Below(v, 0.9) then Light
    else VeryLight
  }

  function ChromaOf(v: Number): (r: Chroma)
    ensures r == Neutral <==> Below(v, 0.05)
    ensures r == Muted <==> v.Finite? && 0.05 <= v.value < 0.15
    ensures r == Saturated <==> v.Finite? && 0.15 <= v.value < 0.25
    ensures r == Vivid <==> !Below(v, 0.25)
  {
    if Below(v, 0.05) then Neutral
    else if Below(v, 0.15) then Muted
    else if Below(v, 0.25) then Saturated
    else Vivid
  }

  /** Grey exactly when the chroma is neutral; otherwise the hue wheel cut
      at 30, 60, 90, 150, 210, 270 and 330 degrees, red on both ends. */
  function HueOf(chroma: Number, hue: Number): (r: Hue)
    ensures r == Gray <==> Below(chroma, 0.05)
    ensures r == Red <==> !Below(chroma, 0.05) && (Below(hue, 30.0) || !Below(hue, 330.0))
    ensures r == Blue <==> !Below(chroma, 0.05) && hue.Finite? && 210.0 <= hue.value < 270.0
  {
    if Below(chroma, 0.05) then Gray
    else if Below(hue, 30.0) then Red
    else if Below(hue, 60.0) then Orange
    else if Below(hue, 90.0) then Yellow
    else if Below(hue, 150.0) then Green
    else if Below(hue, 210.0) then Cyan
    else if Below(hue, 270.0) then Blue
    else if Below(hue, 330.0) then Purple
    else Red
  }

  /** The rank of a lightness bucket, darkest first. */
  function LightnessRank(l: Lightness): nat {
    match l
    case VeryDark => 0
    case Dark => 1
    case Medium => 2
    case Light => 3
    case VeryLight => 4
  }

  /** A lighter colour never gets a darker bucket. */
  lemma LightnessMonotone(x: real, y: real)
    requires x <= y
    ensures LightnessRank(LightnessOf(Finite(x))) <= LightnessRank(LightnessOf(Finite(y)))
  {
  }

  /** `/oklch\(\s*([\d.]+)\s+([\d.]+)\s+([\d.]+)/` matches at `p`. */
  predicate MatchAt(s: string, p: nat) {
    p + 6 <= |s| && s[p..p + 6] == "oklch(" && ThreeNumbers(s[p + 6..]).Some?
  }

  /** Where that pattern first matches at or after `from`. */
  function MatchFrom(s: string, from: nat): (r: Option<nat>)
    ensures r.Some? ==> from <= r.value && MatchAt(s, r.value)
    ensures r.Some? ==> forall p: nat :: from <= p < r.value ==> !MatchAt(s, p)
    ensures r.None? ==> forall p: nat :: from <= p ==> !MatchAt(s, p)
    decreases |s| - from
  {
    if from + 6 > |s| then None
    else if MatchAt(s, from) then Some(from)
    else MatchFrom(s, from + 1)
  }

  /** `describeOKLCHColor(color)`: `None` without a match. */
  function Describe(color: string): (r: Option<Description>)
    ensures r.Some? <==> MatchFrom(color, 0).Some?
    ensures r.Some? ==> (r.value.hue == Gray <==> r.value.chroma == Neutral)
  {
    var p := MatchFrom(color, 0);
    if p.None? then None
    else
      var x := ThreeNumbers(color[p.value + 6..]).value.0;
      var l := ParseFloat(x.l);
      var c := ParseFloat(x.c);
      var h := ParseFloat(x.h);
      Some(Description(LightnessOf(l), ChromaOf(c), HueOf(c, h)))
  }

  /** Describing a written colour reads its three components. */
  lemma DescribeRender(x: Lch, alpha: Option<string>)
    requires NumText(x.l) && NumText(x.c) && NumText(x.h)
    ensures var l := ParseFloat(x.l); var c := ParseFloat(x.c); var h := ParseFloat(x.h); Describe(Render(x, alpha)) == Some(Description(LightnessOf(l), ChromaOf(c), HueOf(c, h)))
  {
    MatchesAtStart(x, alpha);
  }

  lemma MatchesAtStart(x: Lch, alpha: Option<string>)
    requires NumText(x.l) && NumText(x.c) && NumText(x.h)
    ensures MatchFrom(Render(x, alpha), 0) == Some(0)
    ensures ThreeNumbers(Render(x, alpha)[6..]) == Some((x, AlphaSuffix(alpha)))
  {
    RenderShape(x, alpha);
    ThreeOf(x, AlphaSuffix(alpha));
    assert MatchAt(Render(x, alpha), 0);
  }

  /** The example of the documentation comment: `oklch(0.5 0.2 250)`. */
  lemma DescribeExample()
    ensures Describe(Render(Lch("0.5", "0.2", "250"), None)) == Some(Description(Medium, Saturated, Blue))
  {
    var x := Lch("0.5", "0.2", "250");
    DescribeExampleValues(x);
    DescribeRender(x, None);
  }

  lemma DescribeExampleValues(x: Lch)
    requires x == Lch("0.5", "0.2", "250")
    ensures NumText(x.l) && NumText(x.c) && NumText(x.h)
    ensures ParseFloat(x.l) == Finite(0.5) && ParseFloat(x.c) == Finite(0.2) && ParseFloat(x.h) == Finite(250.0)
  {
    HalfAndFifth(x.l, x.c);
    ReadHundreds(x.h, '2', '5', '0', 250);
  }
}
