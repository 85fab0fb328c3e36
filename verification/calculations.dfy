/** The shared counting and classification helpers of
    `lib/utils/calculations.ts`. */
module Calculations {
  import opened Wrappers
  import opened JsString
  import opened Assoc
  import opened Num

  /** What one `[code, n]` entry adds in `sumRecordValuesExcludingJ`:
      justified absences ("J") and non-finite values add nothing. */
  function NonJShare(code: string, n: Number): real {
    if code == "J" then 0.0 else if IsFinite(n) then n.value else 0.0
  }

  function SumNonJ(m: AList<Number>): real {
    if |m| == 0 then 0.0 else NonJShare(m[0].0, m[0].1) + SumNonJ(m[1..])
  }

  predicate AllFiniteNonNegative(m: AList<Number>) {
    forall i :: 0 <= i < |m| ==> m[i].1.Finite? && m[i].1.value >= 0.0
  }

  /** `sumRecordValuesExcludingJ`: an absent record sums to 0; otherwise the
      finite values of every key but "J" are added. */
  function SumRecordValuesExcludingJ(record: Option<AList<Number>>): (r: real)
    ensures record.None? ==> r == 0.0
    ensures record.Some? && AllFiniteNonNegative(record.value) ==> r >= 0.0
  {
    match record
    case None => 0.0
    case Some(m) => SumNonJNonNegative(m); SumNonJ(m)
  }

  lemma {:induction false} SumNonJNonNegative(m: AList<Number>)
    ensures AllFiniteNonNegative(m) ==> SumNonJ(m) >= 0.0
  {
    if |m| > 0 { SumNonJNonNegative(m[1..]); }
  }

  /** The "J" entry never influences the sum, whatever its value. */
  lemma {:induction false} SumIgnoresJ(m: AList<Number>, v: Number)
    ensures SumNonJ(Put(m, "J", v)) == SumNonJ(m)
  {
    if |m| > 0 && m[0].0 != "J" {
      SumIgnoresJ(m[1..], v);
      assert Put(m, "J", v) == [m[0]] + Put(m[1..], "J", v);
    } else if |m| > 0 {
      assert Put(m, "J", v) == [("J", v)] + m[1..];
    }
  }

  /** A non-finite value contributes like a missing one. */
  lemma {:induction false} SumIgnoresNonFinite(m: AList<Number>, k: string, v: Number)
    requires UniqueKeys(m) && !IsFinite(v) && !HasKey(m, k)
    ensures SumNonJ(Put(m, k, v)) == SumNonJ(m)
  {
    if |m| > 0 {
      assert Keys(m) == [m[0].0] + Keys(m[1..]);
      SumIgnoresNonFinite(m[1..], k, v);
      assert Put(m, k, v) == [m[0]] + Put(m[1..], k, v);
    }
  }

  /** Absence counts as JavaScript numbers. */
  function CountsAsNumbers(c: AList<nat>): (r: AList<Number>)
    ensures |r| == |c| && forall i :: 0 <= i < |c| ==> r[i] == (c[i].0, Finite(c[i].1 as real))
  {
    if |c| == 0 then [] else [(c[0].0, Finite(c[0].1 as real))] + CountsAsNumbers(c[1..])
  }

  /** The non-"J" total of a count map, as a natural number. */
  function NonJCount(c: AList<nat>): nat {
    if |c| == 0 then 0 else (if c[0].0 == "J" then 0 else c[0].1) + NonJCount(c[1..])
  }

  /** Overwriting a count other than "J" changes the non-"J" total by the
      difference; a "J" entry never counts. */
  lemma {:induction false} NonJCountPut(c: AList<nat>, k: string, v: nat)
    requires UniqueKeys(c)
    ensures k != "J" ==> NonJCount(Put(c, k, v)) + GetOr<nat>(c, k, 0) == NonJCount(c) + v
    ensures k == "J" ==> NonJCount(Put(c, k, v)) == NonJCount(c)
  {
    if |c| > 0 && c[0].0 != k {
      NonJCountPut(c[1..], k, v);
      assert Put(c, k, v) == [c[0]] + Put(c[1..], k, v);
    } else if |c| > 0 {
      assert Put(c, k, v) == [(k, v)] + c[1..];
    }
  }

  lemma {:induction false} SumOfCounts(c: AList<nat>)
    ensures SumRecordValuesExcludingJ(Some(CountsAsNumbers(c))) == NonJCount(c) as real
  {
    if |c| > 0 {
      SumOfCounts(c[1..]);
      assert CountsAsNumbers(c)[1..] == CountsAsNumbers(c[1..]);
    }
  }

  /** `calcPercent`: 0 without a positive total, otherwise the percentage
      rounded to two decimals and clamped to [0, 100]. */
  function CalcPercent(abs: real, total: real): (r: real)
    ensures 0.0 <= r <= 100.0
    ensures total <= 0.0 ==> r == 0.0
    ensures total > 0.0 && abs >= total ==> r == 100.0
    ensures total > 0.0 && abs <= 0.0 ==> r == 0.0
  {
    if total <= 0.0 then 0.0
    else
      var raw := abs / total * 100.0;
      assert abs >= total ==> raw >= 100.0 by {
        if abs >= total { assert abs / total >= 1.0; }
      }
      assert abs <= 0.0 ==> raw <= 0.0;
      RoundedPercentBounds(raw);
      Max(0.0, Min(100.0, Round2(raw)))
  }

  /** Between 0 and the total, the result is the ratio times 100 to within
      half a hundredth. */
  lemma CalcPercentNearRatio(abs: real, total: real)
    requires total > 0.0 && 0.0 <= abs <= total
    ensures -1.0 / 200.0 < CalcPercent(abs, total) - abs / total * 100.0 <= 1.0 / 200.0
  {
    var raw := abs / total * 100.0;
    assert 0.0 <= raw <= 100.0 by {
      assert abs / total <= 1.0;
    }
    RoundedPercentBounds(raw);
  }

  lemma RoundedPercentBounds(raw: real)
    ensures raw >= 100.0 ==> Round2(raw) >= 100.0
    ensures raw <= 0.0 ==> Round2(raw) <= 0.0
    ensures 0.0 <= raw <= 100.0 ==> 0.0 <= Round2(raw) <= 100.0
  {
    Round2OfInt(0);
    Round2OfInt(100);
    if raw >= 100.0 { Round2Monotone(100.0, raw); }
    if raw <= 0.0 { Round2Monotone(raw, 0.0); }
    if 0.0 <= raw <= 100.0 {
      Round2Monotone(0.0, raw);
      Round2Monotone(raw, 100.0);
    }
  }

  /** With the total fixed, more absences never give a lower percentage. */
  lemma CalcPercentMonotone(a: real, b: real, total: real)
    requires a <= b
    ensures CalcPercent(a, total) <= CalcPercent(b, total)
  {
    if total > 0.0 {
      assert a / total * 100.0 <= b / total * 100.0;
      Round2Monotone(a / total * 100.0, b / total * 100.0);
    }
  }

  /** The reto (project module) token at index `i` of `t`: digit, two ASCII
      letters, digit, with no ASCII letter or digit right before or after.
      The `i` flag of the source pattern changes nothing, since without the
      `u` flag it only relates ASCII letters to ASCII letters. */
  predicate RetoTokenAt(t: string, i: int) {
    0 <= i && i + 4 <= |t|
    && IsDigit(t[i]) && IsAsciiLetter(t[i + 1]) && IsAsciiLetter(t[i + 2]) && IsDigit(t[i + 3])
    && (i == 0 || !IsAlnum(t[i - 1]))
    && (i + 4 == |t| || !IsAlnum(t[i + 4]))
  }

  predicate HasRetoToken(t: string) { exists i :: 0 <= i < |t| && RetoTokenAt(t, i) }

  /** The text both reto helpers search: `${code} ${label || ""}`. */
  function RetoText(code: string, legendLabel: Option<string>): string {
    code + " " + legendLabel.GetOr("")
  }

  /** Leftmost token at or after `from`. */
  function FirstRetoToken(t: string, from: nat): (r: Option<nat>)
    ensures r.Some? ==> from <= r.value < |t| && RetoTokenAt(t, r.value)
    ensures r.Some? ==> forall j :: from <= j < r.value ==> !RetoTokenAt(t, j)
    ensures r.None? ==> forall j :: from <= j < |t| ==> !RetoTokenAt(t, j)
    decreases |t| - from
  {
    if from >= |t| then None
    else if RetoTokenAt(t, from) then Some(from)
    else FirstRetoToken(t, from + 1)
  }

  /** `isRetoModule` */
  function IsRetoModule(code: string, legendLabel: Option<string>): (r: bool)
    ensures r <==> HasRetoToken(RetoText(code, legendLabel))
  {
    FirstRetoToken(RetoText(code, legendLabel), 0).Some?
  }

  /** `extractGroupToken`: the leftmost reto token, upper-cased. */
  function ExtractGroupToken(code: string, legendLabel: Option<string>): (r: Option<string>)
    ensures r.Some? <==> IsRetoModule(code, legendLabel)
    ensures r.Some? ==>
      exists i :: (0 <= i < |RetoText(code, legendLabel)| && RetoTokenAt(RetoText(code, legendLabel), i)
        && (forall j :: 0 <= j < i ==> !RetoTokenAt(RetoText(code, legendLabel), j))
        && r.value == ToUpper(RetoText(code, legendLabel)[i..i + 4]))
  {
    var t := RetoText(code, legendLabel);
    match FirstRetoToken(t, 0)
    case None => None
    case Some(i) => Some(ToUpper(t[i..i + 4]))
  }

  /** A missing legend label and a label equal to the code classify a module
      the same way; the former is what `lib/server/snapshot.ts` sees for an
      unlabelled module, the latter what the callers that write
      `label || code` see. */
  lemma RetoLabelDefault(code: string)
    ensures IsRetoModule(code, None) == IsRetoModule(code, Some(code))
    ensures ExtractGroupToken(code, None) == ExtractGroupToken(code, Some(code))
  {
    var t1 := RetoText(code, None);
    var t2 := RetoText(code, Some(code));
    assert t1 == code + " " && t2 == code + " " + code;
    FirstTokenSame(code);
    var f := FirstRetoToken(t1, 0);
    if f.Some? {
      assert t1[f.value..f.value + 4] == t2[f.value..f.value + 4];
      assert ExtractGroupToken(code, None) == Some(ToUpper(t1[f.value..f.value + 4]));
      assert ExtractGroupToken(code, Some(code)) == Some(ToUpper(t2[f.value..f.value + 4]));
    }
  }

  lemma FirstTokenSame(code: string)
    ensures FirstRetoToken(code + " ", 0) == FirstRetoToken(code + " " + code, 0)
  {
    var t1 := code + " ";
    var t2 := code + " " + code;
    forall i | 0 <= i < |t1| ensures RetoTokenAt(t1, i) == RetoTokenAt(t2, i) {
      TokenInFirstCopy(code, i);
    }
    forall i | |t1| <= i < |t2| ensures RetoTokenAt(t2, i) ==> RetoTokenAt(t1, i - |t1|) {
      TokenInSecondCopy(code, i);
    }
    var f1 := FirstRetoToken(t1, 0);
    var f2 := FirstRetoToken(t2, 0);
    if f1.Some? {
      assert RetoTokenAt(t2, f1.value);
      assert forall j :: 0 <= j < f1.value ==> !RetoTokenAt(t2, j);
      assert f2.Some? && f2.value >= f1.value;
    } else {
      assert forall j :: 0 <= j < |t2| ==> !RetoTokenAt(t2, j);
    }
  }

  /** Within `code + " "` a token looks the same in `code + " " + code`. */
  lemma TokenInFirstCopy(code: string, i: int)
    requires 0 <= i < |code| + 1
    ensures RetoTokenAt(code + " ", i) == RetoTokenAt(code + " " + code, i)
  {
    var t1 := code + " ";
    var t2 := code + " " + code;
    assert forall k :: 0 <= k < |t1| ==> t2[k] == t1[k];
    assert t2[|code|] == ' ' && t1[|code|] == ' ';
  }

  /** A token in the second copy of `code` is also one in `code + " "`. */
  lemma TokenInSecondCopy(code: string, i: int)
    requires |code| + 1 <= i
    ensures RetoTokenAt(code + " " + code, i) ==> RetoTokenAt(code + " ", i - |code| - 1)
  {
    var t1 := code + " ";
    var t2 := code + " " + code;
    var j := i - |code| - 1;
    if RetoTokenAt(t2, i) {
      SecondCopyAt(code, j);
      SecondCopyAt(code, j + 1);
      SecondCopyAt(code, j + 2);
      SecondCopyAt(code, j + 3);
      if j > 0 {
        SecondCopyAt(code, j - 1);
      }
      if j + 4 < |code| {
        SecondCopyAt(code, j + 4);
      }
    }
  }

  /** Position `m` of the second copy is position `m` of the first. */
  lemma SecondCopyAt(code: string, m: int)
    requires 0 <= m < |code|
    ensures (code + " " + code)[|code| + 1 + m] == code[m] && (code + " ")[m] == code[m]
  {
  }

  /** `extractAbsenceCode`: for a non-empty class, the (possibly empty) run of
      `\w` characters after the first "falta_"; `None` otherwise. */
  function ExtractAbsenceCode(cssClass: Option<string>): (r: Option<string>)
    ensures cssClass.None? || cssClass.value == "" ==> r.None?
    ensures cssClass.Some? && cssClass.value != "" ==> (r.Some? <==> Contains(cssClass.value, "falta_"))
    ensures r.Some? ==>
      exists i :: (OccursAt(cssClass.value, "falta_", i)
        && (forall j :: 0 <= j < i ==> !OccursAt(cssClass.value, "falta_", j))
        && i + 6 + |r.value| <= |cssClass.value|
        && r.value == cssClass.value[i + 6..i + 6 + |r.value|]
        && (forall k :: 0 <= k < |r.value| ==> IsWordChar(r.value[k]))
        && (i + 6 + |r.value| == |cssClass.value| || !IsWordChar(cssClass.value[i + 6 + |r.value|])))
  {
    match cssClass
    case None => None
    case Some(s) =>
      if s == "" then None
      else match IndexOf(s, "falta_")
        case None => None
        case Some(i) =>
          var rest := s[i + 6..];
          var n := RunLength(rest, IsWordChar);
          assert rest[..n] == s[i + 6..i + 6 + n];
          Some(rest[..n])
  }
}
