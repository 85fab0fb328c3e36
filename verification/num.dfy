/** JavaScript numbers as the source uses them: exact reals for finite
    values, plus `NaN` and the infinities where the code tests
    `Number.isFinite`; the rounding helpers `Number(x.toFixed(2))` and
    `Math.round`; and `Number(string)` for plain decimal text. */
module Num {
  import opened Wrappers
  import opened JsString

  datatype Number = Finite(value: real) | NaN | Infinite(negative: bool)

  predicate IsFinite(n: Number) { n.Finite? }

  /** JavaScript truthiness of a number: everything but 0 and NaN. */
  predicate Truthy(n: Number) { n.Infinite? || (n.Finite? && n.value != 0.0) }

  /** `x || 0` followed by a use as a finite value; infinities are kept out
      (they stay infinite, so callers that need a real see 0 only for falsy
      input). */
  function OrZero(n: Number): (r: Number)
    ensures Truthy(n) ==> r == n
    ensures !Truthy(n) ==> r == Finite(0.0)
  {
    if Truthy(n) then n else Finite(0.0)
  }

  function Max(a: real, b: real): real { if a >= b then a else b }
  function Min(a: real, b: real): real { if a <= b then a else b }

  function Floor(x: real): int { x.Floor }

  /** `Number(x.toFixed(2))`: the multiple of 1/100 nearest to `x`, halves
      going to the larger one (`toFixed` picks the larger `n` on a tie). */
  function Round2(x: real): (r: real)
    ensures -1.0 / 200.0 < r - x <= 1.0 / 200.0
    ensures (r * 100.0).Floor as real == r * 100.0
  {
    var n := Floor(x * 100.0 + 0.5);
    n as real / 100.0
  }

  /** `Math.round`: the nearest integer, halves rounding up. */
  function MathRound(x: real): (r: int)
    ensures x - 0.5 < r as real <= x + 0.5
  {
    Floor(x + 0.5)
  }

  /** A value that already has at most two decimals is left as it is, so
      rounding twice is rounding once. */
  lemma Round2OfCents(n: int)
    ensures Round2(n as real / 100.0) == n as real / 100.0
  {
    var x := n as real / 100.0;
    assert x * 100.0 == n as real;
    var f := Floor(n as real + 0.5);
    assert f as real <= n as real + 0.5 < f as real + 1.0;
    assert f == n;
  }

  lemma Round2Idempotent(x: real)
    ensures Round2(Round2(x)) == Round2(x)
  {
    Round2OfCents(Floor(x * 100.0 + 0.5));
  }

  lemma Round2Monotone(x: real, y: real)
    requires x <= y
    ensures Round2(x) <= Round2(y)
  {
    assert Floor(x * 100.0 + 0.5) <= Floor(y * 100.0 + 0.5);
  }

  lemma Round2OfInt(n: int)
    ensures Round2(n as real) == n as real
  {
    Round2OfCents(n * 100);
  }

  function Pow10(k: nat): (r: nat)
    ensures r >= 1
  {
    if k == 0 then 1 else 10 * Pow10(k - 1)
  }

  /** The value of `int "." frac` for two digit strings. */
  function DecimalValue(int_: string, frac: string): real
    requires AllDigits(int_) && AllDigits(frac)
  {
    DigitsValue(int_) as real + DigitsValue(frac) as real / Pow10(|frac|) as real
  }

  /** Length of the longest prefix of `s` made of decimal digits. */
  function DigitRun(s: string): (n: nat)
    ensures n <= |s| && AllDigits(s[..n])
    ensures n < |s| ==> !IsDigit(s[n])
  {
    if |s| > 0 && IsDigit(s[0]) then
      var k := DigitRun(s[1..]);
      assert forall i :: 1 <= i < 1 + k ==> s[i] == s[1..][i - 1];
      1 + k
    else 0
  }

  /** Unsigned decimal text `digits ["." digits]` with at least one digit on
      either side of the point; `None` for anything else. */
  function UnsignedDecimal(s: string): (r: Option<real>)
    ensures r.Some? ==> r.value >= 0.0
  {
    var n := DigitRun(s);
    if n == |s| then
      if n == 0 then None else Some(DigitsValue(s) as real)
    else if s[n] == '.' then
      var f := s[n + 1..];
      var m := DigitRun(f);
      if m == |f| && (n > 0 || m > 0) then
        assert f[..m] == f;
        assert s[..n] == s[..n][..n];
        Some(DecimalValue(s[..n], f))
      else None
    else None
  }

  /** `Number(s)` for a string: white space around it is ignored, the empty
      (or all-space) string is 0, an optional sign may precede a plain
      decimal; everything else is `NaN`. */
  function StringToNumber(s: string): (r: Number)
    ensures AllSpace(s) ==> r == Finite(0.0)
    ensures r.Infinite? == false
  {
    var t := Trim(s);
    if |t| == 0 then Finite(0.0) else SignedDecimal(t)
  }

  function SignedDecimal(t: string): (r: Number)
    ensures r.Infinite? == false
  {
    var sign := if |t| > 0 && t[0] == '-' then -1.0 else 1.0;
    var body := if |t| > 0 && (t[0] == '-' || t[0] == '+') then t[1..] else t;
    match UnsignedDecimal(body)
    case Some(v) => Finite(sign * v)
    case None => NaN
  }

  /** `Number(String(n))` for a natural number gives it back. */
  lemma NatTextIsNumber(n: nat)
    ensures StringToNumber(NatToString(n)) == Finite(n as real)
  {
    DigitTextIsNumber(NatToString(n));
    NatToStringValue(n);
  }

  lemma DigitTextIsNumber(s: string)
    requires |s| > 0 && AllDigits(s)
    ensures StringToNumber(s) == Finite(DigitsValue(s) as real)
  {
    EndsNotSpace(s);
    TrimOfTrimmed(s);
    SignedDigits(s);
  }

  lemma EndsNotSpace(s: string)
    requires |s| > 0 && AllDigits(s)
    ensures !IsJsSpace(s[0]) && !IsJsSpace(s[|s| - 1])
  {
    assert IsDigit(s[0]) && IsDigit(s[|s| - 1]);
  }

  lemma SignedDigits(s: string)
    requires |s| > 0 && AllDigits(s)
    ensures SignedDecimal(s) == Finite(DigitsValue(s) as real)
  {
    DigitRunAll(s);
    assert UnsignedDecimal(s) == Some(DigitsValue(s) as real);
  }

  lemma {:induction false} DigitRunAll(s: string)
    requires AllDigits(s)
    ensures DigitRun(s) == |s|
  {
    if |s| > 0 { DigitRunAll(s[1..]); }
  }

  // ---- parseInt ----

  predicate IsHexDigit(c: char) { IsDigit(c) || 'a' <= c <= 'f' || 'A' <= c <= 'F' }

  function HexDigitValue(c: char): nat
    requires IsHexDigit(c)
  {
    if IsDigit(c) then DigitValue(c) else if 'a' <= c <= 'f' then c as int - 'a' as int + 10 else c as int - 'A' as int + 10
  }

  /** Length of the longest prefix of hexadecimal digits. */
  function HexRun(s: string): (n: nat)
    ensures n <= |s| && forall i :: 0 <= i < n ==> IsHexDigit(s[i])
  {
    if |s| > 0 && IsHexDigit(s[0]) then
      var k := HexRun(s[1..]);
      assert forall i :: 1 <= i < 1 + k ==> s[i] == s[1..][i - 1];
      1 + k
    else 0
  }

  function HexValue(s: string): nat
    requires forall i :: 0 <= i < |s| ==> IsHexDigit(s[i])
  {
    if |s| == 0 then 0 else HexValue(s[..|s| - 1]) * 16 + HexDigitValue(s[|s| - 1])
  }

  /** `parseInt(s)` without a radix: leading white space is skipped, a sign
      may follow, then a "0x" or "0X" prefix selects hexadecimal; the
      longest run of digits after that is read and the rest ignored.
      `None` is `NaN`, when no digit follows. */
  function ParseInt(s: string): (r: Option<int>)
  {
    var t := s[LeadingSpace(s)..];
    var sign := if |t| > 0 && t[0] == '-' then -1 else 1;
    var body := if |t| > 0 && (t[0] == '-' || t[0] == '+') then t[1..] else t;
    if |body| >= 2 && body[0] == '0' && (body[1] == 'x' || body[1] == 'X') then
      var h := HexRun(body[2..]);
      if h == 0 then None else Some(sign * HexValue(body[2..][..h]))
    else
      var n := DigitRun(body);
      if n == 0 then None else Some(sign * DigitsValue(body[..n]))
  }

  /** `parseInt(s, 10)`: as `ParseInt`, but with the radix fixed there is
      no hexadecimal prefix, so "0x1" reads as 0. */
  function ParseInt10(s: string): (r: Option<int>)
  {
    var t := s[LeadingSpace(s)..];
    var sign := if |t| > 0 && t[0] == '-' then -1 else 1;
    var body := if |t| > 0 && (t[0] == '-' || t[0] == '+') then t[1..] else t;
    var n := DigitRun(body);
    if n == 0 then None else Some(sign * DigitsValue(body[..n]))
  }

  /** Plain decimal digits read as their value. */
  lemma ParseInt10OfDigits(s: string)
    requires |s| > 0 && AllDigits(s)
    ensures ParseInt10(s) == Some(DigitsValue(s))
  {
    EndsNotSpace(s);
    assert LeadingSpace(s) == 0;
    assert s[0..] == s;
    DigitRunAll(s);
    assert s[..|s|] == s;
  }

  /** `parseInt(String(n))` gives `n` back. */
  lemma ParseIntOfNat(n: nat)
    ensures ParseInt(NatToString(n)) == Some(n)
  {
    var s := NatToString(n);
    EndsNotSpace(s);
    assert LeadingSpace(s) == 0;
    assert s[0..] == s;
    DigitRunAll(s);
    assert s[..|s|] == s;
    NatToStringValue(n);
  }

  /** `parseInt("-" + String(n))` gives `-n`. */
  lemma ParseIntOfNegative(n: nat)
    ensures ParseInt("-" + NatToString(n)) == Some(-(n as int))
  {
    var d := NatToString(n);
    var s := "-" + d;
    assert !IsJsSpace(s[0]);
    assert LeadingSpace(s) == 0;
    assert s[0..] == s;
    assert s[1..] == d;
    DigitRunAll(d);
    assert d[..|d|] == d;
    NatToStringValue(n);
  }

  /** Text that does not start, after white space and a sign, with a digit
      is `NaN`. */
  lemma ParseIntNoDigit(s: string)
    requires var t := s[LeadingSpace(s)..];
      var body := if |t| > 0 && (t[0] == '-' || t[0] == '+') then t[1..] else t;
      |body| == 0 || !IsDigit(body[0])
    ensures ParseInt(s) == None
  {
  }
}
