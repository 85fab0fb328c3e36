/** Version handling of `lib/services/versionPolicy.ts` and
    `app/updates.tsx`: dotted version strings compared component by
    component, the server policy that can block an outdated desktop
    build, and the check for a newer release. `app/updates.tsx` carries
    letter-for-letter copies of `normalizeVersion` (as `parseVersion`) and
    `compareSemver`, so both files are modelled by the one definition
    here. The application's own version (`pkg.version`) is a parameter. */
module VersionPolicy {
  import opened Wrappers
  import opened JsString
  import opened Num

  // ---- normalizeVersion / parseVersion ----

  /** `.replace(/^v/i, "")` */
  function StripV(s: string): string {
    if |s| > 0 && (s[0] == 'v' || s[0] == 'V') then s[1..] else s
  }

  /** `normalizeVersion`: "0.0.0" for a missing or empty input, otherwise
      the trimmed text without one leading "v" or "V". */
  function NormalizeVersion(input: Option<string>): (r: string)
    ensures input.None? || input.value == "" ==> r == "0.0.0"
    ensures input.Some? && input.value != "" ==> |r| <= |input.value|
  {
    if input.None? || input.value == "" then "0.0.0" else StripV(Trim(input.value))
  }

  /** A plain dotted version: digits and dots, starting and ending with a
      digit. */
  predicate PlainVersion(s: string) {
    |s| > 0 && IsDigit(s[0]) && IsDigit(s[|s| - 1])
    && forall i :: 0 <= i < |s| ==> IsDigit(s[i]) || s[i] == '.'
  }

  /** A plain version comes back unchanged, with or without a "v" in front. */
  lemma NormalizePlain(s: string)
    requires PlainVersion(s)
    ensures NormalizeVersion(Some(s)) == s
    ensures NormalizeVersion(Some("v" + s)) == s
    ensures NormalizeVersion(Some("V" + s)) == s
  {
    NormalizePrefixed(s, []);
    NormalizePrefixed(s, ['v']);
    NormalizePrefixed(s, ['V']);
  }

  lemma NormalizePrefixed(s: string, prefix: string)
    requires PlainVersion(s)
    requires prefix == [] || prefix == ['v'] || prefix == ['V']
    ensures NormalizeVersion(Some(prefix + s)) == s
  {
    var t := prefix + s;
    assert t[0] == 'v' || t[0] == 'V' || IsDigit(t[0]);
    assert t[|t| - 1] == s[|s| - 1];
    TrimOfTrimmed(t);
    if prefix != [] {
      assert t[1..] == s;
    }
  }

  // ---- compareSemver ----

  /** `parseInt(n || "0", 10)`; `None` is `NaN`. */
  function ParsePart(p: string): Option<int> {
    ParseInt10(if p == "" then "0" else p)
  }

  function ParseParts(parts: seq<string>): (r: seq<Option<int>>)
    ensures |r| == |parts| && forall i :: 0 <= i < |parts| ==> r[i] == ParsePart(parts[i])
  {
    if |parts| == 0 then [] else [ParsePart(parts[0])] + ParseParts(parts[1..])
  }

  /** The numeric components of a version string. */
  function Components(s: string): seq<Option<int>> {
    ParseParts(Split(NormalizeVersion(Some(s)), '.'))
  }

  /** `pa[i] ?? 0`: a missing component is 0; `NaN` stays `NaN`. */
  function At(p: seq<Option<int>>, i: nat): Option<int> {
    if i < |p| then p[i] else Some(0)
  }

  /** `da > db`, false whenever a side is `NaN`. */
  predicate Gt(x: Option<int>, y: Option<int>) {
    x.Some? && y.Some? && x.value > y.value
  }

  /** The loop of `compareSemver` from index `i` up to `n`. */
  function CompareUpTo(pa: seq<Option<int>>, pb: seq<Option<int>>, i: nat, n: nat): (r: int)
    ensures r == -1 || r == 0 || r == 1
    decreases n - i
  {
    if i >= n then 0
    else if Gt(At(pa, i), At(pb, i)) then 1
    else if Gt(At(pb, i), At(pa, i)) then -1
    else CompareUpTo(pa, pb, i + 1, n)
  }

  function MaxLen(pa: seq<Option<int>>, pb: seq<Option<int>>): nat {
    if |pa| >= |pb| then |pa| else |pb|
  }

  /** `compareSemver(a, b)`: 1, -1 or 0 as `a` is above, below or level
      with `b`. */
  function CompareSemver(a: string, b: string): (r: int)
    ensures r == -1 || r == 0 || r == 1
  {
    var pa, pb := Components(a), Components(b);
    CompareUpTo(pa, pb, 0, MaxLen(pa, pb))
  }

  lemma {:induction false} CompareUpToSelf(p: seq<Option<int>>, i: nat, n: nat)
    ensures CompareUpTo(p, p, i, n) == 0
    decreases n - i
  {
    if i < n {
      CompareUpToSelf(p, i + 1, n);
    }
  }

  lemma {:induction false} CompareUpToSwap(pa: seq<Option<int>>, pb: seq<Option<int>>, i: nat, n: nat)
    ensures CompareUpTo(pa, pb, i, n) == -CompareUpTo(pb, pa, i, n)
    decreases n - i
  {
    if i < n {
      CompareUpToSwap(pa, pb, i + 1, n);
    }
  }

  /** Components that agree once padded with zeros compare level. */
  lemma {:induction false} CompareUpToPadded(pa: seq<Option<int>>, pb: seq<Option<int>>, i: nat, n: nat)
    requires forall k :: i <= k < n ==> At(pa, k) == At(pb, k)
    ensures CompareUpTo(pa, pb, i, n) == 0
    decreases n - i
  {
    if i < n {
      assert At(pa, i) == At(pb, i);
      CompareUpToPadded(pa, pb, i + 1, n);
    }
  }

  /** Past the end of both sides every component is 0, so the bound may be
      raised freely. */
  lemma {:induction false} CompareUpToLonger(pa: seq<Option<int>>, pb: seq<Option<int>>, i: nat, n: nat, m: nat)
    requires MaxLen(pa, pb) <= n <= m
    ensures CompareUpTo(pa, pb, i, n) == CompareUpTo(pa, pb, i, m)
    decreases m - i
  {
    if i >= n {
      CompareUpToPadded(pa, pb, i, m);
    } else {
      CompareUpToLonger(pa, pb, i + 1, n, m);
    }
  }

  /** Every component is a number, no `NaN`. */
  predicate Numeric(p: seq<Option<int>>) { forall i :: 0 <= i < |p| ==> p[i].Some? }

  lemma {:induction false} CompareUpToTrans(pa: seq<Option<int>>, pb: seq<Option<int>>, pc: seq<Option<int>>, i: nat, n: nat)
    requires Numeric(pa) && Numeric(pb) && Numeric(pc)
    requires CompareUpTo(pa, pb, i, n) <= 0 && CompareUpTo(pb, pc, i, n) <= 0
    ensures CompareUpTo(pa, pc, i, n) <= 0
    ensures CompareUpTo(pa, pb, i, n) < 0 || CompareUpTo(pb, pc, i, n) < 0 ==> CompareUpTo(pa, pc, i, n) < 0
    decreases n - i
  {
    if i < n {
      var a, b, c := At(pa, i), At(pb, i), At(pc, i);
      assert a.Some? && b.Some? && c.Some?;
      if a.value == b.value && b.value == c.value {
        CompareUpToTrans(pa, pb, pc, i + 1, n);
      }
    }
  }

  /** Every version is level with itself, `NaN` components included. */
  lemma CompareReflexive(a: string)
    ensures CompareSemver(a, a) == 0
  {
    CompareUpToSelf(Components(a), 0, MaxLen(Components(a), Components(a)));
  }

  /** Swapping the arguments flips the sign. */
  lemma CompareAntisymmetric(a: string, b: string)
    ensures CompareSemver(a, b) == -CompareSemver(b, a)
  {
    var pa, pb := Components(a), Components(b);
    assert MaxLen(pa, pb) == MaxLen(pb, pa);
    CompareUpToSwap(pa, pb, 0, MaxLen(pa, pb));
  }

  /** On versions without `NaN` components the order is transitive, both
      for "at most" and for "below". */
  lemma CompareTransitive(a: string, b: string, c: string)
    requires Numeric(Components(a)) && Numeric(Components(b)) && Numeric(Components(c))
    requires CompareSemver(a, b) <= 0 && CompareSemver(b, c) <= 0
    ensures CompareSemver(a, c) <= 0
    ensures CompareSemver(a, b) < 0 || CompareSemver(b, c) < 0 ==> CompareSemver(a, c) < 0
  {
    var pa, pb, pc := Components(a), Components(b), Components(c);
    var n := MaxLen(pa, pb);
    n := if n >= |pc| then n else |pc|;
    CompareUpToLonger(pa, pb, 0, MaxLen(pa, pb), n);
    CompareUpToLonger(pb, pc, 0, MaxLen(pb, pc), n);
    CompareUpToLonger(pa, pc, 0, MaxLen(pa, pc), n);
    CompareUpToTrans(pa, pb, pc, 0, n);
  }

  /** Missing trailing components count as 0: a version is level with
      itself followed by ".0". */
  lemma TrailingZeroIgnored(s: string)
    requires PlainVersion(s)
    ensures CompareSemver(s, s + ".0") == 0
  {
    ComponentsTrailingZero(s);
    var pa, pb := Components(s), Components(s + ".0");
    forall k | 0 <= k < MaxLen(pa, pb) ensures At(pa, k) == At(pb, k) {
    }
    CompareUpToPadded(pa, pb, 0, MaxLen(pa, pb));
  }

  lemma ComponentsTrailingZero(s: string)
    requires PlainVersion(s)
    ensures Components(s + ".0") == Components(s) + [Some(0)]
  {
    var t := s + ".0";
    PlainVersionTrailingZero(s);
    NormalizePlain(s);
    NormalizePlain(t);
    SplitTrailingZero(s);
    ParsePartsAppend(Split(s, '.'), ["0"]);
    ParsePartZero();
    calc {
      Components(t);
      ParseParts(Split(t, '.'));
      ParseParts(Split(s, '.') + ["0"]);
      ParseParts(Split(s, '.')) + ParseParts(["0"]);
    }
  }

  lemma PlainVersionTrailingZero(s: string)
    requires PlainVersion(s)
    ensures PlainVersion(s + ".0")
  {
    var t := s + ".0";
    assert forall i :: 0 <= i < |s| ==> t[i] == s[i];
    assert t[|s|] == '.' && t[|s| + 1] == '0';
  }

  lemma ParsePartZero()
    ensures ParseParts(["0"]) == [Some(0)]
  {
    ParseInt10OfDigits("0");
    assert DigitsValue("0") == 0 by { assert "0"[..0] == []; }
  }

  lemma ParsePartsAppend(a: seq<string>, b: seq<string>)
    ensures ParseParts(a + b) == ParseParts(a) + ParseParts(b)
  {
    assert ParseParts(a + b) == ParseParts(a) + ParseParts(b) by {
      assert forall i :: 0 <= i < |a| ==> (a + b)[i] == a[i];
      assert forall i :: 0 <= i < |b| ==> (a + b)[|a| + i] == b[i];
    }
  }

  lemma {:induction false} SplitTrailingZero(s: string)
    ensures Split(s + ".0", '.') == Split(s, '.') + ["0"]
  {
    if |s| == 0 {
      assert s + ".0" == ".0" && ".0"[0] == '.' && ".0"[1..] == "0";
      SplitWithoutSeparator("0", '.');
      assert Split(".0", '.') == [""] + Split("0", '.');
    } else {
      var t := s + ".0";
      assert t[0] == s[0] && t[1..] == s[1..] + ".0";
      SplitTrailingZero(s[1..]);
      var rest := Split(s[1..], '.');
      if s[0] != '.' {
        assert (rest + ["0"])[0] == rest[0];
        assert (rest + ["0"])[1..] == rest[1..] + ["0"];
        assert Split(t, '.') == [[s[0]] + rest[0]] + rest[1..] + ["0"];
      } else {
        assert Split(t, '.') == [""] + rest + ["0"];
      }
    }
  }

  // ---- shouldBlockByPolicy ----

  datatype Policy = Policy(minimumVersion: Option<string>, deprecatedVersions: Option<seq<string>>)

  datatype Decision = Decision(blocked: bool, reason: string)

  /** `policy.minimumVersion && normalizeVersion(policy.minimumVersion)`,
      with every falsy outcome written as "". */
  function MinOf(policy: Policy): string {
    if policy.minimumVersion.None? || policy.minimumVersion.value == "" then ""
    else NormalizeVersion(policy.minimumVersion)
  }

  function NormalizeAll(vs: seq<string>): (r: seq<string>)
    ensures |r| == |vs| && forall i :: 0 <= i < |vs| ==> r[i] == NormalizeVersion(Some(vs[i]))
  {
    if |vs| == 0 then [] else [NormalizeVersion(Some(vs[0]))] + NormalizeAll(vs[1..])
  }

  /** The running version is below a set minimum. */
  predicate BelowMinimum(policy: Policy, current: string) {
    MinOf(policy) != "" && CompareSemver(current, MinOf(policy)) < 0
  }

  /** The running version is in the normalised deprecated list. */
  predicate Deprecated(policy: Policy, current: string) {
    current in NormalizeAll(policy.deprecatedVersions.GetOr([]))
  }

  /** `shouldBlockByPolicy`, given `pkg.version`. */
  function ShouldBlockByPolicy(policy: Option<Policy>, pkgVersion: string): (r: Decision)
    ensures policy.None? ==> r == Decision(false, "no-policy")
    ensures policy.Some? ==>
      var p, current := policy.value, NormalizeVersion(Some(pkgVersion));
      && (BelowMinimum(p, current) ==> r == Decision(true, "version-minima:" + MinOf(p)))
      && (!BelowMinimum(p, current) && Deprecated(p, current) ==> r == Decision(true, "version-bloqueada"))
      && (!BelowMinimum(p, current) && !Deprecated(p, current) ==> r == Decision(false, "ok"))
  {
    var current := NormalizeVersion(Some(pkgVersion));
    if policy.None? then Decision(false, "no-policy")
    else
      var min := MinOf(policy.value);
      if min != "" && CompareSemver(current, min) < 0 then Decision(true, "version-minima:" + min)
      else if current in NormalizeAll(policy.value.deprecatedVersions.GetOr([])) then Decision(true, "version-bloqueada")
      else Decision(false, "ok")
  }

  /** A build that is exactly the minimum version, written the same way,
      is not blocked by the minimum; it is blocked only when listed. */
  lemma AtMinimumNotBelow(pkgVersion: string, deprecated: Option<seq<string>>)
    requires pkgVersion != ""
    ensures var p := Policy(Some(pkgVersion), deprecated);
      ShouldBlockByPolicy(Some(p), pkgVersion).blocked <==> Deprecated(p, NormalizeVersion(Some(pkgVersion)))
  {
    CompareReflexive(NormalizeVersion(Some(pkgVersion)));
  }

  /** A build above the minimum stays unblocked whatever the minimum is
      raised to, as long as it is still not above the build. */
  lemma RaisingMinimumBelowBuild(pkgVersion: string, lower: string, higher: string)
    requires lower != "" && higher != ""
    requires var current, lo, hi := NormalizeVersion(Some(pkgVersion)), NormalizeVersion(Some(lower)), NormalizeVersion(Some(higher));
      Numeric(Components(current)) && Numeric(Components(lo)) && Numeric(Components(hi))
      && CompareSemver(lo, hi) <= 0 && CompareSemver(hi, current) <= 0
    ensures !BelowMinimum(Policy(Some(lower), None), NormalizeVersion(Some(pkgVersion)))
    ensures !BelowMinimum(Policy(Some(higher), None), NormalizeVersion(Some(pkgVersion)))
  {
    var current, lo, hi := NormalizeVersion(Some(pkgVersion)), NormalizeVersion(Some(lower)), NormalizeVersion(Some(higher));
    CompareTransitive(lo, hi, current);
    CompareAntisymmetric(current, lo);
    CompareAntisymmetric(current, hi);
  }

  // ---- app/updates.tsx ----

  /** The fields of the latest-release JSON the check reads. */
  datatype ReleaseJson = ReleaseJson(tagName: Option<string>, name: Option<string>, htmlUrl: Option<string>)

  datatype ReleaseInfo = ReleaseInfo(version: string, url: string)

  const ReleasesPage: string := "https://github.com/andiricum2/Faltas-Cebanc/releases"

  /** `(a as string) || b`: the first non-empty of the two. */
  function OrElse(a: Option<string>, b: string): string {
    if a.Some? && a.value != "" then a.value else b
  }

  /** `fetchLatestRelease` after the request: `None` for a failed request or
      a non-OK answer, otherwise the version of `tag_name`, else `name`,
      normalised; a tag that normalises to nothing gives `None`. */
  function LatestRelease(response: Option<ReleaseJson>): (r: Option<ReleaseInfo>)
    ensures response.None? ==> r.None?
    ensures r.Some? ==> r.value.version != ""
    ensures response.Some? ==>
      var tag := OrElse(response.value.tagName, OrElse(response.value.name, ""));
      (r.Some? <==> NormalizeVersion(Some(tag)) != "")
      && (r.Some? ==> r.value == ReleaseInfo(NormalizeVersion(Some(tag)), OrElse(response.value.htmlUrl, ReleasesPage)))
  {
    if response.None? then None
    else
      var j := response.value;
      var tag := OrElse(j.tagName, OrElse(j.name, ""));
      var version := NormalizeVersion(Some(tag));
      if version == "" then None else Some(ReleaseInfo(version, OrElse(j.htmlUrl, ReleasesPage)))
  }

  /** A release whose tag is a bare "v" is ignored, while one without any tag
      or name reads as version "0.0.0". */
  lemma LatestReleaseEdgeTags(url: Option<string>)
    ensures LatestRelease(Some(ReleaseJson(Some("v"), None, url))).None?
    ensures LatestRelease(Some(ReleaseJson(None, None, url))).Some?
    ensures LatestRelease(Some(ReleaseJson(None, None, url))).value.version == "0.0.0"
  {
    assert !IsJsSpace('v');
    TrimOfTrimmed("v");
    assert "v"[1..] == "";
  }

  /** The update notice: a release was found and it is above the running
      version. */
  predicate UpdateAvailable(latest: Option<ReleaseInfo>, pkgVersion: string) {
    latest.Some? && CompareSemver(latest.value.version, NormalizeVersion(Some(pkgVersion))) > 0
  }

  /** When the notice fires, the running version is below the release; a
      release equal to the running version never fires it. */
  lemma UpdateMeansBehind(latest: ReleaseInfo, pkgVersion: string)
    ensures UpdateAvailable(Some(latest), pkgVersion) <==>
      CompareSemver(NormalizeVersion(Some(pkgVersion)), latest.version) < 0
    ensures latest.version == NormalizeVersion(Some(pkgVersion)) ==> !UpdateAvailable(Some(latest), pkgVersion)
  {
    CompareAntisymmetric(latest.version, NormalizeVersion(Some(pkgVersion)));
    CompareReflexive(latest.version);
  }
}
