/** `lib/theme/utils.ts`: labels for colour keys, ids for custom presets
    and the preset-name rule. */
module ThemeLib {
  import opened JsString

  // ---- formatColorLabel ----

  /** Every ASCII capital of `r` comes right after a space. */
  predicate CapitalsSpaced(r: string) {
    forall i :: 0 <= i < |r| && IsAsciiUpper(r[i]) ==> i > 0 && r[i - 1] == ' '
  }

  /** `.replace(/([A-Z])/g, " $1")`: a space before every ASCII capital. */
  function SpaceCapitals(s: string): (r: string)
    ensures CapitalsSpaced(r)
    ensures |s| > 0 && !IsAsciiUpper(s[0]) ==> |r| > 0 && r[0] == s[0]
    ensures |s| > 0 ==> |r| > 0 && r[|r| - 1] == s[|s| - 1]
  {
    if |s| == 0 then []
    else
      var rest := SpaceCapitals(s[1..]);
      SpacedCons(Spaced(s[0]), rest);
      Spaced(s[0]) + rest
  }

  /** One character after the replacement. */
  function Spaced(c: char): string {
    if IsAsciiUpper(c) then [' ', c] else [c]
  }

  lemma SpacedCons(head: string, rest: string)
    requires CapitalsSpaced(rest)
    requires (|head| == 2 && head[0] == ' ') || (|head| == 1 && !IsAsciiUpper(head[0]))
    ensures CapitalsSpaced(head + rest)
  {
    var r := head + rest;
    forall i | 0 <= i < |r| && IsAsciiUpper(r[i]) ensures i > 0 && r[i - 1] == ' ' {
      if i >= |head| {
        assert r[i] == rest[i - |head|];
      }
    }
  }

  /** `.replace(/^./, (str) => str.toUpperCase())`: `.` does not match a
      line terminator, so such a first character stays as it is. */
  function CapitalizeFirst(s: string): (r: string)
    ensures |r| == |s|
    ensures forall i :: 0 < i < |s| ==> r[i] == s[i]
    ensures |s| > 0 ==> r[0] == (if IsLineTerminator(s[0]) then s[0] else UpperChar(s[0]))
  {
    if |s| == 0 || IsLineTerminator(s[0]) then s else [UpperChar(s[0])] + s[1..]
  }

  /** `formatColorLabel(key)` */
  function FormatColorLabel(key: string): (r: string)
    ensures |r| > 0 ==> !IsJsSpace(r[0]) && !IsJsSpace(r[|r| - 1])
  {
    Trim(CapitalizeFirst(SpaceCapitals(key)))
  }

  /** The spaces of `s` left out. */
  function RemoveSpaces(s: string): (r: string)
    ensures forall i :: 0 <= i < |r| ==> r[i] != ' '
  {
    if |s| == 0 then []
    else
      var rest := RemoveSpaces(s[1..]);
      if s[0] == ' ' then rest else [s[0]] + rest
  }

  /** The first character lower-cased. */
  function Uncapitalize(s: string): string {
    if |s| == 0 then s else [LowerChar(s[0])] + s[1..]
  }

  /** A camel-case key such as `primaryForeground` or `chart1`: it starts
      with a lower-case letter and holds no white space. */
  predicate IsCamelKey(key: string) {
    |key| > 0 && IsAsciiLower(key[0]) && forall i :: 0 <= i < |key| ==> !IsJsSpace(key[i])
  }

  /** `RemoveSpaces` reads one character at a time. */
  lemma RemoveSpacesCons(c: char, t: string)
    ensures RemoveSpaces([c] + t) == (if c == ' ' then [] else [c]) + RemoveSpaces(t)
  {
    assert ([c] + t)[1..] == t;
  }

  /** Removing the inserted spaces gives back the key. */
  lemma {:induction false} RemoveInsertedSpaces(s: string)
    requires forall i :: 0 <= i < |s| ==> s[i] != ' '
    ensures RemoveSpaces(SpaceCapitals(s)) == s
  {
    if |s| > 0 {
      var rest := SpaceCapitals(s[1..]);
      RemoveInsertedSpaces(s[1..]);
      RemoveSpacedChar(s[0], rest);
      assert s == [s[0]] + s[1..];
    }
  }

  lemma RemoveSpacedChar(c: char, rest: string)
    requires c != ' '
    ensures RemoveSpaces(Spaced(c) + rest) == [c] + RemoveSpaces(rest)
  {
    RemoveSpacesCons(c, rest);
    if IsAsciiUpper(c) {
      assert [' ', c] + rest == [' '] + ([c] + rest);
      RemoveSpacesCons(' ', [c] + rest);
    }
  }

  /** On a camel-case key the label starts with the key's first letter in
      upper case, puts a space before every later capital, and undoing both
      gives back the key: `formatColorLabel` loses nothing. */
  lemma FormatColorLabelInverse(key: string)
    requires IsCamelKey(key)
    ensures var r := FormatColorLabel(key);
      |r| > 0 && r[0] == UpperChar(key[0])
    ensures var r := FormatColorLabel(key);
      forall i :: 0 < i < |r| && IsAsciiUpper(r[i]) ==> r[i - 1] == ' '
    ensures Uncapitalize(RemoveSpaces(FormatColorLabel(key))) == key
  {
    LabelIsUntrimmed(key);
    UndoLabel(key);
  }

  /** Lower-casing the first letter of the spaced key, without its spaces,
      gives back the key. */
  lemma UndoLabel(key: string)
    requires IsCamelKey(key)
    ensures Uncapitalize(RemoveSpaces(CapitalizeFirst(SpaceCapitals(key)))) == key
  {
    var s := SpaceCapitals(key);
    var t := s[1..];
    forall i | 0 <= i < |key| ensures key[i] != ' ' { assert !IsJsSpace(key[i]); }
    RemoveInsertedSpaces(key);
    assert s == [key[0]] + t;
    assert CapitalizeFirst(s) == [UpperChar(key[0])] + t;
    UncapitalizeUpper(key[0], t);
  }

  lemma UncapitalizeUpper(c: char, t: string)
    requires IsAsciiLower(c)
    ensures Uncapitalize(RemoveSpaces([UpperChar(c)] + t)) == RemoveSpaces([c] + t)
  {
    RemoveSpacesCons(c, t);
    RemoveSpacesCons(UpperChar(c), t);
  }

  /** On a camel-case key there is nothing for `trim` to remove. */
  lemma LabelIsUntrimmed(key: string)
    requires |key| > 0 && IsAsciiLower(key[0]) && !IsJsSpace(key[|key| - 1])
    ensures FormatColorLabel(key) == CapitalizeFirst(SpaceCapitals(key))
  {
    var s := SpaceCapitals(key);
    var c := CapitalizeFirst(s);
    assert !IsJsSpace(c[0]);
    assert !IsJsSpace(c[|c| - 1]) by {
      if |c| > 1 { assert c[|c| - 1] == s[|s| - 1] == key[|key| - 1]; }
    }
    TrimOfTrimmed(c);
  }

  /** The documented example. */
  lemma FormatColorLabelExample(key: string)
    requires key == "primaryForeground"
    ensures FormatColorLabel(key) == "Primary Foreground"
  {
    var a, b := "primary", "oreground";
    ExampleParts(key, a, b);
    LabelOf(a, 'F', b);
  }

  lemma ExampleParts(key: string, a: string, b: string)
    requires key == "primaryForeground" && a == "primary" && b == "oreground"
    ensures key == a + (['F'] + b)
    ensures |a| > 0 && AllLower(a) && AllLower(b)
    ensures [UpperChar(a[0])] + (a[1..] + ([' ', 'F'] + b)) == "Primary Foreground"
  {
  }

  /** The label of `a + [F] + b` for lower-case words `a` and `b` and a
      capital `F`. */
  lemma LabelOf(a: string, f: char, b: string)
    requires |a| > 0 && IsAsciiUpper(f) && AllLower(a) && AllLower(b)
    ensures FormatColorLabel(a + ([f] + b)) == [UpperChar(a[0])] + (a[1..] + ([' ', f] + b))
  {
    SpacedKey(a, f, b);
    KeyEnds(a, f, b);
    LabelIsUntrimmed(a + ([f] + b));
    CapitalizeSpaced(a, [' ', f] + b);
  }

  /** Lower-case ASCII letters only. */
  predicate AllLower(s: string) {
    forall i :: 0 <= i < |s| ==> IsAsciiLower(s[i])
  }

  lemma KeyEnds(a: string, f: char, b: string)
    requires |a| > 0 && IsAsciiUpper(f) && AllLower(a) && AllLower(b)
    ensures var k := a + ([f] + b); IsAsciiLower(k[0]) && !IsJsSpace(k[|k| - 1])
  {
    var k := a + ([f] + b);
    assert k[0] == a[0];
    if |b| > 0 { assert k[|k| - 1] == b[|b| - 1]; }
  }

  lemma CapitalizeSpaced(a: string, x: string)
    requires |a| > 0 && IsAsciiLower(a[0])
    ensures CapitalizeFirst(a + x) == [UpperChar(a[0])] + (a[1..] + x)
  {
    assert (a + x)[0] == a[0];
    TailOfAppend(a, x);
  }

  lemma TailOfAppend(a: string, x: string)
    requires |a| > 0
    ensures (a + x)[1..] == a[1..] + x
  {
  }

  lemma SpacedKey(a: string, f: char, b: string)
    requires IsAsciiUpper(f) && AllLower(a) && AllLower(b)
    ensures SpaceCapitals(a + ([f] + b)) == a + ([' ', f] + b)
  {
    SpaceCapitalsAppend(a, [f] + b);
    SpaceCapitalsLower(a);
    SpaceCapitalsLower(b);
    assert ([f] + b)[1..] == b;
  }

  lemma {:induction false} SpaceCapitalsAppend(a: string, b: string)
    ensures SpaceCapitals(a + b) == SpaceCapitals(a) + SpaceCapitals(b)
  {
    if |a| > 0 {
      assert (a + b)[1..] == a[1..] + b;
      SpaceCapitalsAppend(a[1..], b);
      var x, y, z := Spaced(a[0]), SpaceCapitals(a[1..]), SpaceCapitals(b);
      assert x + (y + z) == (x + y) + z;
    } else {
      assert a + b == b;
    }
  }

  lemma {:induction false} SpaceCapitalsLower(s: string)
    requires forall i :: 0 <= i < |s| ==> !IsAsciiUpper(s[i])
    ensures SpaceCapitals(s) == s
  {
    if |s| > 0 {
      SpaceCapitalsLower(s[1..]);
    }
  }

  // ---- generatePresetId ----

  /** `String.prototype.substring(start, end)`: both ends clamped to the
      string, and swapped when the start is past the end. */
  function Substring(s: string, start: int, end: int): (r: string)
    ensures |r| <= |s|
    ensures 0 <= start <= end <= |s| ==> r == s[start..end]
    ensures (start <= 0 && end <= 0) || (start >= |s| && end >= |s|) ==> r == []
  {
    var a := if start < 0 then 0 else if start > |s| then |s| else start;
    var b := if end < 0 then 0 else if end > |s| then |s| else end;
    if a <= b then s[a..b] else s[b..a]
  }

  const CustomPrefix: string := "custom-"

  /** `generatePresetId()`: `now` is `Date.now()` and `randomText` is
      `Math.random().toString(36)`, both supplied by the caller. */
  function GeneratePresetId(now: nat, randomText: string): (r: string)
    ensures StartsWith(r, CustomPrefix)
    ensures |r| <= |CustomPrefix| + |NatToString(now)| + 1 + 7
  {
    var r := CustomPrefix + (NatToString(now) + "-" + Substring(randomText, 2, 9));
    assert r[..|CustomPrefix|] == CustomPrefix;
    r
  }

  /** `isSystemPreset(presetId)` */
  predicate IsSystemPreset(presetId: string) {
    !StartsWith(presetId, CustomPrefix)
  }

  /** A generated id is never taken for a system preset. */
  lemma GeneratedIsCustom(now: nat, randomText: string)
    ensures !IsSystemPreset(GeneratePresetId(now, randomText))
  {
  }

  /** The timestamp can be read back from a generated id: ids generated at
      different milliseconds differ, whatever the random part. */
  lemma GeneratedIdsDiffer(now1: nat, text1: string, now2: nat, text2: string)
    requires now1 != now2
    ensures GeneratePresetId(now1, text1) != GeneratePresetId(now2, text2)
  {
    var d1, d2 := NatToString(now1), NatToString(now2);
    var r1, r2 := Substring(text1, 2, 9), Substring(text2, 2, 9);
    if GeneratePresetId(now1, text1) == GeneratePresetId(now2, text2) {
      DropPrefix(CustomPrefix, d1 + "-" + r1, d2 + "-" + r2);
      DigitsBeforeDash(d1, r1, d2, r2);
      NatToStringValue(now1);
      NatToStringValue(now2);
    }
  }

  lemma DropPrefix(p: string, a: string, b: string)
    requires p + a == p + b
    ensures a == b
  {
    assert a == (p + a)[|p|..];
  }

  /** In `d + "-" + r` the digits `d` end at the first dash. */
  lemma DigitsBeforeDash(d1: string, r1: string, d2: string, r2: string)
    requires AllDigits(d1) && AllDigits(d2) && d1 + "-" + r1 == d2 + "-" + r2
    ensures d1 == d2
  {
    var t := d1 + "-" + r1;
    assert t[|d1|] == '-';
    assert (d2 + "-" + r2)[|d2|] == '-';
    if |d1| < |d2| {
      assert false;
    } else if |d2| < |d1| {
      assert false;
    }
    assert d1 == t[..|d1|];
    assert d2 == (d2 + "-" + r2)[..|d2|];
  }

  // ---- isValidPresetName ----

  /** `isValidPresetName(name)` */
  predicate IsValidPresetName(name: string) {
    3 <= |Trim(name)| <= 50
  }

  /** `trim` returns the slice between white-space ends, whatever white
      space surrounds it. */
  lemma TrimBetween(s: string, i: int, j: int)
    requires 0 <= i <= j <= |s|
    requires AllSpace(s[..i]) && AllSpace(s[j..])
    requires i < j ==> !IsJsSpace(s[i]) && !IsJsSpace(s[j - 1])
    ensures Trim(s) == s[i..j]
  {
    var n := LeadingSpace(s);
    var e := TrailingStart(s);
    if i < j {
      if n < i || n > i || e < j || e > j { assert false; }
    } else if n < |s| {
      assert false;
    }
  }

  /** White space around a name does not change whether it is valid. */
  lemma NameValidityIgnoresPadding(name: string, before: string, after: string)
    requires AllSpace(before) && AllSpace(after)
    ensures IsValidPresetName(before + name + after) <==> IsValidPresetName(name)
  {
    var t := Trim(name);
    TrimIsSlice(name);
    var a := LeadingSpace(name);
    var s := before + name + after;
    PaddedFront(before, name, after, a);
    PaddedBack(before, name, after, a + |t|);
    PaddedMiddle(before, name, after, a, a + |t|);
    TrimBetween(s, |before| + a, |before| + a + |t|);
  }

  lemma PaddedFront(before: string, name: string, after: string, a: int)
    requires AllSpace(before) && 0 <= a <= |name| && AllSpace(name[..a])
    ensures AllSpace((before + name + after)[..|before| + a])
  {
    var s := before + name + after;
    forall k | 0 <= k < |before| + a ensures IsJsSpace(s[k]) {
      if k < |before| { assert s[k] == before[k]; } else { assert s[k] == name[..a][k - |before|]; }
    }
  }

  lemma PaddedBack(before: string, name: string, after: string, e: int)
    requires AllSpace(after) && 0 <= e <= |name| && AllSpace(name[e..])
    ensures AllSpace((before + name + after)[|before| + e..])
  {
    var s := before + name + after;
    forall k | |before| + e <= k < |s| ensures IsJsSpace(s[k]) {
      if k < |before| + |name| { assert s[k] == name[e..][k - |before| - e]; } else { assert s[k] == after[k - |before| - |name|]; }
    }
  }

  lemma PaddedMiddle(before: string, name: string, after: string, i: int, j: int)
    requires 0 <= i <= j <= |name|
    ensures (before + name + after)[|before| + i..|before| + j] == name[i..j]
  {
    var s := before + name + after;
    assert forall k :: |before| + i <= k < |before| + j ==> s[k] == name[k - |before|];
  }
}
