/** `components/ui/input.tsx`: the `input` handler of a number field, which
    drops redundant leading zeros from what the user typed before the
    consumer's own handler runs. */
module NumberInput {
  import opened JsString

  /** `rest.replace(/^0+/, "")` */
  function StripZeros(s: string): (r: string)
    ensures |r| <= |s| && r == s[|s| - |r|..]
    ensures forall i :: 0 <= i < |s| - |r| ==> s[i] == '0'
    ensures |r| > 0 ==> r[0] != '0'
  {
    if |s| > 0 && s[0] == '0' then StripZeros(s[1..]) else s
  }

  /** The `"-"` the handler sets aside, if the text starts with one. */
  function Sign(v: string): (r: string)
    ensures r == "" || r == "-"
    ensures |r| <= |v| && v[..|r|] == r
  {
    if |v| > 0 && v[0] == '-' then "-" else ""
  }

  /** `rest`: the text after the sign. */
  function Digits(v: string): string {
    v[|Sign(v)|..]
  }

  /** The forms the handler leaves alone: not starting with `"0"`, the
      single `"0"`, or `"0."` followed by anything. */
  predicate Kept(rest: string) {
    |rest| == 0 || rest[0] != '0' || |rest| == 1 || rest[1] == '.'
  }

  /** `t` is `s` less some of its leading zeros. */
  predicate DropsZeros(s: string, t: string) {
    |t| <= |s| && t == s[|s| - |t|..] && forall i :: 0 <= i < |s| - |t| ==> s[i] == '0'
  }

  /** The value of the field after `handleInput` for an `input` of type
      `kind`; other types are left as typed. */
  function HandleInput(kind: string, v: string): (r: string)
    ensures kind != "number" ==> r == v
    ensures kind == "number" ==> r == Normalise(v)
  {
    if kind == "number" then Normalise(v) else v
  }

  /** What the handler makes of `rest`: leading zeros go unless the text
      is a kept form, and at least one digit stays. */
  function Cleaned(rest: string): (t: string)
    ensures Kept(t)
    ensures Kept(rest) <==> t == rest
    ensures DropsZeros(rest, t) || (t == "0" && DropsZeros(rest, "") && rest != "")
  {
    if Kept(rest) then rest
    else
      var stripped := StripZeros(rest);
      if stripped == "" then "0" else stripped
  }

  /** The number branch of `handleInput`: the sign stays in front. */
  function Normalise(v: string): (r: string)
    ensures r == Sign(v) + Cleaned(Digits(v))
    ensures Kept(Digits(v)) <==> r == v
  {
    assert v == Sign(v) + Digits(v);
    Sign(v) + Cleaned(Digits(v))
  }

  /** Normalising twice is normalising once, provided no `"-"` follows the
      leading zeros (a valid floating-point number has none there). */
  lemma NormaliseIdempotent(v: string)
    requires StripZeros(Digits(v)) == "" || StripZeros(Digits(v))[0] != '-'
    ensures Normalise(Normalise(v)) == Normalise(v)
  {
    var r := Normalise(v);
    var s := Sign(v);
    var t := Cleaned(Digits(v));
    if !Kept(Digits(v)) {
      assert t == "0" || t == StripZeros(Digits(v));
      assert Sign(r) == s;
      assert Digits(r) == t;
    }
  }

  /** A leading zero does not change the value of a run of digits. */
  lemma {:induction false} LeadingZeroValue(s: string)
    requires AllDigits(s)
    ensures AllDigits("0" + s) && DigitsValue("0" + s) == DigitsValue(s)
    decreases |s|
  {
    if |s| > 0 {
      var t := "0" + s;
      assert t[..|t| - 1] == "0" + s[..|s| - 1];
      LeadingZeroValue(s[..|s| - 1]);
    }
  }

  /** Dropping leading zeros does not change the value of a run of digits. */
  lemma {:induction false} DropsZerosValue(s: string, t: string)
    requires AllDigits(s) && DropsZeros(s, t)
    ensures AllDigits(t) && DigitsValue(t) == DigitsValue(s)
    decreases |s|
  {
    if |t| < |s| {
      var u := s[1..];
      assert s == "0" + u;
      assert u[|u| - |t|..] == s[|s| - |t|..];
      assert forall i :: 0 <= i < |u| - |t| ==> u[i] == s[i + 1];
      assert DropsZeros(u, t);
      DropsZerosValue(s[1..], t);
      LeadingZeroValue(s[1..]);
    }
  }

  /** For an integer typed as digits the number does not change. */
  lemma NormaliseKeepsValue(v: string)
    requires |Digits(v)| > 0 && AllDigits(Digits(v))
    ensures AllDigits(Cleaned(Digits(v))) && DigitsValue(Cleaned(Digits(v))) == DigitsValue(Digits(v))
  {
    var d := Cleaned(Digits(v));
    if DropsZeros(Digits(v), d) {
      DropsZerosValue(Digits(v), d);
    } else {
      DropsZerosValue(Digits(v), "");
      assert DigitsValue(d) == DigitsValue("0"[..0]) * 10 + DigitValue('0');
    }
  }

  /** `z` is a run of zeros. */
  predicate Zeros(z: string) {
    forall i :: 0 <= i < |z| ==> z[i] == '0'
  }

  /** The strip stops at the first character that is not a zero. */
  lemma {:induction false} StripZerosPrefix(z: string, t: string)
    requires Zeros(z) && (|t| == 0 || t[0] != '0')
    ensures StripZeros(z + t) == t
    decreases |z|
  {
    if |z| > 0 {
      assert (z + t)[0] == '0' && (z + t)[1..] == z[1..] + t;
      StripZerosPrefix(z[1..], t);
    } else {
      assert z + t == t;
    }
  }

  /** A run of zeros leaves a single zero. */
  lemma AllZerosLeaveOne(z: string)
    requires Zeros(z) && |z| > 0
    ensures Cleaned(z) == "0"
  {
    if |z| > 1 {
      StripZerosPrefix(z, "");
      assert z + "" == z;
    } else {
      assert z == "0";
    }
  }

  /** Two or more zeros before a point all go and the point stays; a
      single one is kept. */
  lemma ZerosBeforePoint(z: string, t: string)
    requires Zeros(z) && |z| > 0
    ensures |z| >= 2 ==> Cleaned(z + "." + t) == "." + t
    ensures |z| == 1 ==> Cleaned(z + "." + t) == z + "." + t
  {
    assert z + "." + t == z + ("." + t);
    StripZerosPrefix(z, "." + t);
    if |z| >= 2 {
      assert (z + "." + t)[1] == '0';
    }
  }

  /** Why `NormaliseIdempotent` needs its condition: zeros, a `"-"`, then
      digits that start with a zero lose the zeros to a result that is
      normalised once more. */
  lemma InnerMinus(z: string, t: string)
    requires Zeros(z) && |z| > 0 && |t| >= 2 && t[0] == '0' && t[1] != '.'
    ensures Normalise(z + "-" + t) == "-" + t
    ensures Normalise(Normalise(z + "-" + t)) != Normalise(z + "-" + t)
  {
    var v := z + "-" + t;
    assert v == z + ("-" + t);
    StripZerosPrefix(z, "-" + t);
    assert Sign(v) == "" && Digits(v) == v;
    assert !Kept(v) by {
      if |z| == 1 {
        assert v[1] == '-';
      } else {
        assert v[1] == '0';
      }
    }
    var w := "-" + t;
    assert Sign(w) == "-" && Digits(w) == t;
  }
}
