/** `buildSnapshotWithRetoDistribution` of `lib/server/snapshot.ts`: the
    absences of every reto (a project module recognised by its group token)
    are shared out as "F" absences over ordinary modules, in proportion to
    their weekly hours, and a per-module summary of direct and derived
    figures is attached. */
module RetoDistribution {
  import opened Wrappers
  import opened Assoc
  import opened Num
  import opened Calculations
  import opened SnapshotModel
  import opened Seqs
  import Scraper
  import Aggregation

  /** What `modules[k]` reads as when `k` is missing: no classes, no absences. */
  const NoModule: ModuleStats := ModuleStats(0, [])

  function StatsAt(m: AList<ModuleStats>, k: string): ModuleStats { GetOr(m, k, NoModule) }

  function ClassesAt(m: AList<ModuleStats>, k: string): nat { StatsAt(m, k).classesGiven }

  function CountAt(m: AList<ModuleStats>, k: string, c: string): nat { GetOr<nat>(StatsAt(m, k).absenceCounts, c, 0) }

  /** The absences of a module that count: every code but "J". */
  function FaltasAt(m: AList<ModuleStats>, k: string): nat { NonJCount(StatsAt(m, k).absenceCounts) }

  // ---- reto / non-reto partition ----

  /** The reto test on `${code} ${legend.modules[code] || ""}`. */
  predicate IsRetoKey(legend: Legend, code: string) {
    IsRetoModule(code, Get(legend.modules, code))
  }

  /** The test `keys.filter` applies on one side of the partition. */
  function RetoTest(legend: Legend, reto: bool): string -> bool {
    k => IsRetoKey(legend, k) == reto
  }

  /** The keys whose reto test gives `reto`, in order. */
  function KeysWhere(keys: seq<string>, legend: Legend, reto: bool): seq<string> {
    Filter(keys, RetoTest(legend, reto))
  }

  /** Both sides keep the key order, every key is on the side its test
      picks, and together they have every key once. */
  lemma {:induction false} KeysWherePartition(keys: seq<string>, legend: Legend, k: string)
    ensures IsSubsequence(KeysWhere(keys, legend, true), keys)
    ensures IsSubsequence(KeysWhere(keys, legend, false), keys)
    ensures k in KeysWhere(keys, legend, true) <==> k in keys && IsRetoKey(legend, k)
    ensures k in KeysWhere(keys, legend, false) <==> k in keys && !IsRetoKey(legend, k)
    ensures |KeysWhere(keys, legend, true)| + |KeysWhere(keys, legend, false)| == |keys|
  {
    FilterIsSubsequence(keys, RetoTest(legend, true));
    FilterIsSubsequence(keys, RetoTest(legend, false));
    PartitionLength(keys, legend);
  }

  lemma {:induction false} PartitionLength(keys: seq<string>, legend: Legend)
    ensures |KeysWhere(keys, legend, true)| + |KeysWhere(keys, legend, false)| == |keys|
  {
    if |keys| > 0 {
      PartitionLength(keys[1..], legend);
    }
  }

  function RetoKeys(agg: Aggregated, legend: Legend): seq<string> { KeysWhere(Keys(agg.modules), legend, true) }

  function NonRetoKeys(agg: Aggregated, legend: Legend): seq<string> { KeysWhere(Keys(agg.modules), legend, false) }

  // ---- targets ----

  /** `Object.values(selected).some(Boolean)` */
  predicate AnyFlag(sel: AList<bool>) { exists i :: 0 <= i < |sel| && sel[i].1 }

  function FlagTest(sel: AList<bool>): string -> bool {
    m => GetOr(sel, m, false)
  }

  /** `nonRetoModules.filter(m => !!selected[m])` */
  function Flagged(nonReto: seq<string>, sel: AList<bool>): seq<string> {
    Filter(nonReto, FlagTest(sel))
  }

  /** The modules a reto's absences go to: every non-reto module, unless the
      reto's entry in `retoTargets` flags at least one module, in which case
      exactly the flagged non-reto modules. */
  function Targets(nonReto: seq<string>, selected: Option<AList<bool>>): (r: seq<string>)
    ensures IsSubsequence(r, nonReto)
    ensures selected.Some? && AnyFlag(selected.value) ==>
      forall m :: m in r <==> m in nonReto && GetOr(selected.value, m, false)
    ensures !(selected.Some? && AnyFlag(selected.value)) ==> r == nonReto
  {
    if selected.Some? && AnyFlag(selected.value) then
      FilterIsSubsequence(nonReto, FlagTest(selected.value));
      Flagged(nonReto, selected.value)
    else
      SubsequenceRefl(nonReto);
      nonReto
  }

  // ---- coefficients ----

  /** `Math.max(0, Number(hoursPerModule[m] || 0))` */
  function HoursOf(hpm: AList<real>, m: string): (r: real)
    ensures r >= 0.0
  {
    Max(0.0, GetOr(hpm, m, 0.0))
  }

  function SumHours(ts: seq<string>, hpm: AList<real>): (r: real)
    ensures r >= 0.0
  {
    if |ts| == 0 then 0.0 else SumHours(ts[..|ts| - 1], hpm) + HoursOf(hpm, ts[|ts| - 1])
  }

  /** The unrounded share of target `i`: its part of the hours, or an equal
      part when no target has hours. */
  function Share(ts: seq<string>, hpm: AList<real>, i: nat): real
    requires i < |ts|
  {
    var s := SumHours(ts, hpm);
    if s > 0.0 then HoursOf(hpm, ts[i]) / s else 1.0 / |ts| as real
  }

  /** The coefficient table of one reto: its targets in order, each with its
      share rounded to two decimals. */
  function Coefficients(ts: seq<string>, hpm: AList<real>): (r: AList<real>)
    ensures Keys(r) == ts
    ensures forall i :: 0 <= i < |r| ==> 0.0 <= r[i].1 <= 1.0
    ensures forall i :: 0 <= i < |r| ==> -1.0 / 200.0 < r[i].1 - Share(ts, hpm, i) <= 1.0 / 200.0
  {
    var s := SumHours(ts, hpm);
    var equal := if |ts| > 0 then Round2(1.0 / |ts| as real) else 0.0;
    var r := seq(|ts|, i requires 0 <= i < |ts| => (ts[i], if s > 0.0 then Round2(HoursOf(hpm, ts[i]) / s) else equal));
    forall i | 0 <= i < |r| ensures 0.0 <= r[i].1 <= 1.0 {
      ShareInUnit(ts, hpm, i);
      Round2Monotone(0.0, Share(ts, hpm, i));
      Round2Monotone(Share(ts, hpm, i), 1.0);
      Round2OfInt(0);
      Round2OfInt(1);
    }
    assert Keys(r) == ts;
    r
  }

  lemma ShareInUnit(ts: seq<string>, hpm: AList<real>, i: nat)
    requires i < |ts|
    ensures 0.0 <= Share(ts, hpm, i) <= 1.0
  {
    var s := SumHours(ts, hpm);
    if s > 0.0 {
      HoursWithinSum(ts, hpm, i);
      DivUnit(HoursOf(hpm, ts[i]), s);
    } else {
      DivUnit(1.0, |ts| as real);
    }
  }

  lemma DivUnit(a: real, s: real)
    requires 0.0 <= a <= s && s > 0.0
    ensures 0.0 <= a / s <= 1.0
  {
  }

  lemma MulNonNegative(a: real, b: real)
    requires a >= 0.0 && b >= 0.0
    ensures a * b >= 0.0
  {
  }

  lemma {:induction false} HoursWithinSum(ts: seq<string>, hpm: AList<real>, i: nat)
    requires i < |ts|
    ensures HoursOf(hpm, ts[i]) <= SumHours(ts, hpm)
    decreases |ts|
  {
    if i < |ts| - 1 {
      HoursWithinSum(ts[..|ts| - 1], hpm, i);
    }
  }

  function SharesUpTo(ts: seq<string>, hpm: AList<real>, n: nat): real
    requires n <= |ts|
  {
    if n == 0 then 0.0 else SharesUpTo(ts, hpm, n - 1) + Share(ts, hpm, n - 1)
  }

  lemma DivAdd(a: real, b: real, s: real)
    requires s > 0.0
    ensures a / s + b / s == (a + b) / s
  {
  }

  lemma DivSelf(s: real)
    requires s > 0.0
    ensures s / s == 1.0
  {
  }

  lemma SumHoursPrefixStep(ts: seq<string>, hpm: AList<real>, n: nat)
    requires 0 < n <= |ts|
    ensures SumHours(ts[..n], hpm) == SumHours(ts[..n - 1], hpm) + HoursOf(hpm, ts[n - 1])
  {
    assert ts[..n][..n - 1] == ts[..n - 1];
  }

  lemma {:induction false} SharesPrefixHours(ts: seq<string>, hpm: AList<real>, n: nat)
    requires n <= |ts| && SumHours(ts, hpm) > 0.0
    ensures SharesUpTo(ts, hpm, n) == SumHours(ts[..n], hpm) / SumHours(ts, hpm)
  {
    if n > 0 {
      var total := SumHours(ts, hpm);
      var before := SumHours(ts[..n - 1], hpm);
      var h := HoursOf(hpm, ts[n - 1]);
      SharesPrefixHours(ts, hpm, n - 1);
      SumHoursPrefixStep(ts, hpm, n);
      assert Share(ts, hpm, n - 1) == h / total;
      DivAdd(before, h, total);
    }
  }

  lemma {:induction false} SharesPrefixEqual(ts: seq<string>, hpm: AList<real>, n: nat)
    requires 0 < |ts| && n <= |ts| && SumHours(ts, hpm) == 0.0
    ensures SharesUpTo(ts, hpm, n) == n as real / |ts| as real
  {
    if n > 0 {
      SharesPrefixEqual(ts, hpm, n - 1);
      assert Share(ts, hpm, n - 1) == 1.0 / |ts| as real;
      DivAdd((n - 1) as real, 1.0, |ts| as real);
    }
  }

  /** Before rounding, the shares of a reto's targets add up to one. */
  lemma SharesSumToOne(ts: seq<string>, hpm: AList<real>)
    requires |ts| > 0
    ensures SharesUpTo(ts, hpm, |ts|) == 1.0
  {
    if SumHours(ts, hpm) > 0.0 {
      SharesPrefixHours(ts, hpm, |ts|);
      assert ts[..|ts|] == ts;
      DivSelf(SumHours(ts, hpm));
    } else {
      SharesPrefixEqual(ts, hpm, |ts|);
    }
  }

  // ---- distribution ----

  function Plus(a: nat, b: nat): nat { a + b }

  /** `absenceCounts["F"] = (absenceCounts["F"] || 0) + d` */
  function AddF(st: ModuleStats, d: nat): ModuleStats {
    st.(absenceCounts := Put(st.absenceCounts, "F", Plus(GetOr<nat>(st.absenceCounts, "F", 0), d)))
  }

  /** `Math.round(retoFaltas * (coeficientes[t] || 0))` */
  function Portion(faltas: nat, coefs: AList<real>, t: string): int {
    MathRound(faltas as real * GetOr(coefs, t, 0.0))
  }

  /** The inner loop over the targets of one reto: a positive portion is
      added to the target's "F" count, creating the module if needed. */
  function Distribute(modules: AList<ModuleStats>, ts: seq<string>, coefs: AList<real>, faltas: nat): AList<ModuleStats>
    decreases |ts|
  {
    if |ts| == 0 then modules
    else
      var d := Portion(faltas, coefs, ts[0]);
      var next := if d > 0 then Put(modules, ts[0], AddF(StatsAt(modules, ts[0]), d)) else modules;
      Distribute(next, ts[1..], coefs, faltas)
  }

  /** What the targets add to module `k`'s "F" count. */
  function Added(ts: seq<string>, coefs: AList<real>, faltas: nat, k: string): nat {
    if |ts| == 0 then 0
    else
      var d := Portion(faltas, coefs, ts[0]);
      (if ts[0] == k && d > 0 then d else 0) + Added(ts[1..], coefs, faltas, k)
  }

  lemma StatsAtPut(m: AList<ModuleStats>, t: string, v: ModuleStats, k: string)
    ensures StatsAt(Put(m, t, v), k) == if k == t then v else StatsAt(m, k)
  {
  }

  lemma AddFEffect(st: ModuleStats, d: nat, c: string)
    ensures AddF(st, d).classesGiven == st.classesGiven
    ensures GetOr<nat>(AddF(st, d).absenceCounts, c, 0) == GetOr<nat>(st.absenceCounts, c, 0) + (if c == "F" then d else 0)
  {
  }

  /** A target's count under "F" grows by its positive portion; no class
      count and no other code changes. */
  lemma {:induction false} DistributeEffect(modules: AList<ModuleStats>, ts: seq<string>, coefs: AList<real>, faltas: nat, k: string, c: string)
    ensures var r := Distribute(modules, ts, coefs, faltas);
      && ClassesAt(r, k) == ClassesAt(modules, k)
      && CountAt(r, k, c) == CountAt(modules, k, c) + (if c == "F" then Added(ts, coefs, faltas, k) else 0)
    decreases |ts|
  {
    if |ts| > 0 {
      var d := Portion(faltas, coefs, ts[0]);
      if d > 0 {
        var v := AddF(StatsAt(modules, ts[0]), d);
        var next := Put(modules, ts[0], v);
        StatsAtPut(modules, ts[0], v, k);
        AddFEffect(StatsAt(modules, ts[0]), d, c);
        DistributeEffect(next, ts[1..], coefs, faltas, k, c);
      } else {
        DistributeEffect(modules, ts[1..], coefs, faltas, k, c);
      }
    }
  }

  /** Adding `d` under "F" to a count map with unique keys adds `d` to its
      non-"J" total and keeps the keys unique. */
  lemma AddFFaltas(st: ModuleStats, d: nat)
    requires UniqueKeys(st.absenceCounts)
    ensures UniqueKeys(AddF(st, d).absenceCounts)
    ensures NonJCount(AddF(st, d).absenceCounts) == NonJCount(st.absenceCounts) + d
  {
    var v := Plus(GetOr<nat>(st.absenceCounts, "F", 0), d);
    NonJCountPut(st.absenceCounts, "F", v);
    PutUnique(st.absenceCounts, "F", v);
  }

  /** The non-"J" absences of a target grow by exactly its portions. */
  lemma {:induction false} DistributeFaltas(modules: AList<ModuleStats>, ts: seq<string>, coefs: AList<real>, faltas: nat, k: string)
    requires UniqueKeys(StatsAt(modules, k).absenceCounts)
    ensures var r := Distribute(modules, ts, coefs, faltas);
      && UniqueKeys(StatsAt(r, k).absenceCounts)
      && FaltasAt(r, k) == FaltasAt(modules, k) + Added(ts, coefs, faltas, k)
    decreases |ts|
  {
    if |ts| > 0 {
      var d := Portion(faltas, coefs, ts[0]);
      if d > 0 {
        var v := AddF(StatsAt(modules, ts[0]), d);
        var next := Put(modules, ts[0], v);
        StatsAtPut(modules, ts[0], v, k);
        if ts[0] == k {
          AddFFaltas(StatsAt(modules, k), d);
        }
        DistributeFaltas(next, ts[1..], coefs, faltas, k);
      } else {
        DistributeFaltas(modules, ts[1..], coefs, faltas, k);
      }
    }
  }

  /** A module that is not a target gets nothing. */
  lemma {:induction false} AddedOutside(ts: seq<string>, coefs: AList<real>, faltas: nat, k: string)
    requires k !in ts
    ensures Added(ts, coefs, faltas, k) == 0
  {
    if |ts| > 0 {
      assert k !in ts[1..] by { assert forall x :: x in ts[1..] ==> x in ts; }
      AddedOutside(ts[1..], coefs, faltas, k);
    }
  }

  // ---- the loop over retos ----

  datatype Distributed = Distributed(modules: AList<ModuleStats>, coeficientes: AList<AList<real>>)

  /** A reto's absences, "J" excepted, as the base aggregate has them. */
  function RetoFaltas(base: AList<ModuleStats>, reto: string): nat { FaltasAt(base, reto) }

  function RetoTargets(nonReto: seq<string>, retoTargets: AList<AList<bool>>, reto: string): seq<string> {
    Targets(nonReto, Get(retoTargets, reto))
  }

  /** One reto: with at least one target its coefficients are recorded and,
      when it has absences, those are distributed. */
  function DistributeOne(acc: Distributed, reto: string, nonReto: seq<string>, base: AList<ModuleStats>,
                         retoTargets: AList<AList<bool>>, hpm: AList<real>): Distributed
  {
    var ts := RetoTargets(nonReto, retoTargets, reto);
    if |ts| == 0 then acc
    else
      var coefs := Coefficients(ts, hpm);
      var faltas := RetoFaltas(base, reto);
      Distributed(
        if faltas > 0 then Distribute(acc.modules, ts, coefs, faltas) else acc.modules,
        Put(acc.coeficientes, reto, coefs))
  }

  function DistributeRetos(acc: Distributed, retos: seq<string>, nonReto: seq<string>, base: AList<ModuleStats>,
                           retoTargets: AList<AList<bool>>, hpm: AList<real>): Distributed
    decreases |retos|
  {
    if |retos| == 0 then acc
    else DistributeRetos(DistributeOne(acc, retos[0], nonReto, base, retoTargets, hpm), retos[1..], nonReto, base, retoTargets, hpm)
  }

  /** What reto `reto` adds to module `k`'s "F" count. */
  function AddedByReto(reto: string, nonReto: seq<string>, base: AList<ModuleStats>,
                       retoTargets: AList<AList<bool>>, hpm: AList<real>, k: string): nat
  {
    var ts := RetoTargets(nonReto, retoTargets, reto);
    var faltas := RetoFaltas(base, reto);
    if |ts| == 0 || faltas == 0 then 0 else Added(ts, Coefficients(ts, hpm), faltas, k)
  }

  /** What all the retos add to module `k`'s "F" count. */
  function AddedByRetos(retos: seq<string>, nonReto: seq<string>, base: AList<ModuleStats>,
                        retoTargets: AList<AList<bool>>, hpm: AList<real>, k: string): nat
  {
    if |retos| == 0 then 0
    else AddedByReto(retos[0], nonReto, base, retoTargets, hpm, k) + AddedByRetos(retos[1..], nonReto, base, retoTargets, hpm, k)
  }

  lemma DistributeOneEffect(acc: Distributed, reto: string, nonReto: seq<string>, base: AList<ModuleStats>,
                            retoTargets: AList<AList<bool>>, hpm: AList<real>, k: string, c: string)
    ensures var r := DistributeOne(acc, reto, nonReto, base, retoTargets, hpm);
      && ClassesAt(r.modules, k) == ClassesAt(acc.modules, k)
      && CountAt(r.modules, k, c) == CountAt(acc.modules, k, c)
           + (if c == "F" then AddedByReto(reto, nonReto, base, retoTargets, hpm, k) else 0)
      && (HasKey(r.coeficientes, k) <==> HasKey(acc.coeficientes, k) || (k == reto && |RetoTargets(nonReto, retoTargets, reto)| > 0))
  {
    var ts := RetoTargets(nonReto, retoTargets, reto);
    if |ts| > 0 {
      var coefs := Coefficients(ts, hpm);
      var faltas := RetoFaltas(base, reto);
      if faltas > 0 {
        DistributeEffect(acc.modules, ts, coefs, faltas, k, c);
      }
      assert HasKey(Put(acc.coeficientes, reto, coefs), k) <==> Get(Put(acc.coeficientes, reto, coefs), k).Some?;
    }
  }

  /** Over all retos: class counts and every code but "F" stay as they were,
      "F" grows by what the retos add, and a coefficient table is recorded
      exactly for the retos with at least one target. */
  lemma {:induction false} DistributeRetosEffect(acc: Distributed, retos: seq<string>, nonReto: seq<string>, base: AList<ModuleStats>,
                                                 retoTargets: AList<AList<bool>>, hpm: AList<real>, k: string, c: string)
    ensures var r := DistributeRetos(acc, retos, nonReto, base, retoTargets, hpm);
      && ClassesAt(r.modules, k) == ClassesAt(acc.modules, k)
      && CountAt(r.modules, k, c) == CountAt(acc.modules, k, c)
           + (if c == "F" then AddedByRetos(retos, nonReto, base, retoTargets, hpm, k) else 0)
      && (HasKey(r.coeficientes, k) <==> HasKey(acc.coeficientes, k) || (k in retos && |RetoTargets(nonReto, retoTargets, k)| > 0))
    decreases |retos|
  {
    if |retos| > 0 {
      var next := DistributeOne(acc, retos[0], nonReto, base, retoTargets, hpm);
      DistributeOneEffect(acc, retos[0], nonReto, base, retoTargets, hpm, k, c);
      DistributeRetosEffect(next, retos[1..], nonReto, base, retoTargets, hpm, k, c);
      assert k in retos <==> k == retos[0] || k in retos[1..];
    }
  }

  lemma DistributeOneFaltas(acc: Distributed, reto: string, nonReto: seq<string>, base: AList<ModuleStats>,
                             retoTargets: AList<AList<bool>>, hpm: AList<real>, k: string)
    requires UniqueKeys(StatsAt(acc.modules, k).absenceCounts)
    ensures var r := DistributeOne(acc, reto, nonReto, base, retoTargets, hpm);
      && UniqueKeys(StatsAt(r.modules, k).absenceCounts)
      && FaltasAt(r.modules, k) == FaltasAt(acc.modules, k) + AddedByReto(reto, nonReto, base, retoTargets, hpm, k)
  {
    var ts := RetoTargets(nonReto, retoTargets, reto);
    if |ts| > 0 && RetoFaltas(base, reto) > 0 {
      DistributeFaltas(acc.modules, ts, Coefficients(ts, hpm), RetoFaltas(base, reto), k);
    }
  }

  /** Over all retos, a module's non-"J" absences grow by what the retos add. */
  lemma {:induction false} DistributeRetosFaltas(acc: Distributed, retos: seq<string>, nonReto: seq<string>, base: AList<ModuleStats>,
                                                 retoTargets: AList<AList<bool>>, hpm: AList<real>, k: string)
    requires UniqueKeys(StatsAt(acc.modules, k).absenceCounts)
    ensures var r := DistributeRetos(acc, retos, nonReto, base, retoTargets, hpm);
      FaltasAt(r.modules, k) == FaltasAt(acc.modules, k) + AddedByRetos(retos, nonReto, base, retoTargets, hpm, k)
    decreases |retos|
  {
    if |retos| > 0 {
      DistributeOneFaltas(acc, retos[0], nonReto, base, retoTargets, hpm, k);
      DistributeRetosFaltas(DistributeOne(acc, retos[0], nonReto, base, retoTargets, hpm), retos[1..], nonReto, base, retoTargets, hpm, k);
    }
  }

  /** Only the targets, which are non-reto modules, receive absences. */
  lemma {:induction false} AddedByRetosOutside(retos: seq<string>, nonReto: seq<string>, base: AList<ModuleStats>,
                                               retoTargets: AList<AList<bool>>, hpm: AList<real>, k: string)
    requires k !in nonReto
    ensures AddedByRetos(retos, nonReto, base, retoTargets, hpm, k) == 0
  {
    if |retos| > 0 {
      var ts := RetoTargets(nonReto, retoTargets, retos[0]);
      SubsequenceMembers(ts, nonReto);
      if |ts| > 0 && RetoFaltas(base, retos[0]) > 0 {
        AddedOutside(ts, Coefficients(ts, hpm), RetoFaltas(base, retos[0]), k);
      }
      AddedByRetosOutside(retos[1..], nonReto, base, retoTargets, hpm, k);
    }
  }

  // ---- moduleCalculations ----

  /** `coeficientes[code] || 0` of one reto's table. */
  function CoefOf(coefs: AList<real>, code: string): real { GetOr(coefs, code, 0.0) }

  /** The derived absences of module `code`: for every recorded reto whose
      coefficient for it is positive, the reto's absences times that
      coefficient, rounded to two decimals. */
  function DerivedFaltas(modules: AList<ModuleStats>, coeficientes: AList<AList<real>>, code: string): real {
    if |coeficientes| == 0 then 0.0
    else
      var c := CoefOf(coeficientes[0].1, code);
      (if c > 0.0 then Round2(FaltasAt(modules, coeficientes[0].0) as real * c) else 0.0)
        + DerivedFaltas(modules, coeficientes[1..], code)
  }

  /** The derived classes, weighted the same way. */
  function DerivedClasses(modules: AList<ModuleStats>, coeficientes: AList<AList<real>>, code: string): real {
    if |coeficientes| == 0 then 0.0
    else
      var c := CoefOf(coeficientes[0].1, code);
      (if c > 0.0 then Round2(ClassesAt(modules, coeficientes[0].0) as real * c) else 0.0)
        + DerivedClasses(modules, coeficientes[1..], code)
  }

  /** `Number(Number(x.toFixed(2)).toFixed(2))`: rounding twice is rounding once. */
  function RoundTwice(x: real): (r: real)
    ensures r == Round2(x)
  {
    Round2Idempotent(x);
    Round2(Round2(x))
  }

  /** A whole number rounded twice to two decimals is itself. */
  function WholeRoundTwice(n: nat): (r: real)
    ensures r == n as real
  {
    Round2OfInt(n);
    Round2(Round2(n as real))
  }

  /** The summary built from a module's direct absences and classes and
      its derived ones. */
  function Summary(directas: nat, fd: real, classes: nat, ad: real): ModuleCalc {
    var asDirectas := WholeRoundTwice(classes);
    ModuleCalc(
      faltasDirectas := Some(Max(0.0, directas as real)),
      faltasDerivadas := Some(Round2(fd)),
      sesionesDirectas := None,
      sesionesDerivadas := None,
      totalFaltas := Some(RoundTwice(directas as real + fd)),
      totalSesiones := None,
      asistenciasDirectas := Some(asDirectas),
      asistenciasDerivadas := Some(Round2(ad)),
      totalAsistencias := Some(RoundTwice(asDirectas + ad)))
  }

  /** The summary of one non-reto module; its direct absences are the
      non-"J" counts of `direct`. */
  function CalcOf(direct: AList<ModuleStats>, dist: Distributed, code: string): ModuleCalc {
    Summary(FaltasAt(direct, code), DerivedFaltas(dist.modules, dist.coeficientes, code),
            ClassesAt(dist.modules, code), DerivedClasses(dist.modules, dist.coeficientes, code))
  }

  function Calcs(direct: AList<ModuleStats>, dist: Distributed, nonReto: seq<string>): (r: AList<ModuleCalc>)
    ensures Keys(r) == nonReto
    ensures forall i :: 0 <= i < |r| ==> r[i].1 == CalcOf(direct, dist, nonReto[i])
  {
    if |nonReto| == 0 then []
    else
      var r := [(nonReto[0], CalcOf(direct, dist, nonReto[0]))] + Calcs(direct, dist, nonReto[1..]);
      assert Keys(r) == [nonReto[0]] + nonReto[1..];
      r
  }

  // ---- the whole pass ----

  function DistributeAll(agg: Aggregated, legend: Legend, retoTargets: AList<AList<bool>>, hpm: AList<real>): Distributed {
    DistributeRetos(Distributed(agg.modules, []), RetoKeys(agg, legend), NonRetoKeys(agg, legend), agg.modules, retoTargets, hpm)
  }

  /** The base snapshot with the distributed modules, the coefficient tables
      and the summaries; the absence totals are copied as they were. */
  function Assemble(base: Snapshot, dist: Distributed, calcs: AList<ModuleCalc>): Snapshot {
    base.(aggregated := base.aggregated.(modules := dist.modules),
          coeficientes := Some(dist.coeficientes),
          moduleCalculations := Some(calcs))
  }

  /** The summaries as written: the direct absences are read from the
      modules after the distribution, so they include what the retos
      handed out. */
  function CalcsAsWritten(dist: Distributed, nonReto: seq<string>): AList<ModuleCalc> {
    Calcs(dist.modules, dist, nonReto)
  }

  /** The summaries with the direct absences read from the base aggregate,
      so that a distributed absence is counted once, as a derived one. */
  function CalcsCorrected(base: AList<ModuleStats>, dist: Distributed, nonReto: seq<string>): AList<ModuleCalc> {
    Calcs(base, dist, nonReto)
  }

  /** `buildSnapshotWithRetoDistribution` as written. The result keeps the
      base snapshot's identity, legend, percentages, weeks and absence
      totals, takes the distributed modules, records the coefficient tables
      and has one summary per non-reto module, in order; each summary's
      direct absences are read from the distributed modules, so they are
      the module's own non-"J" absences plus everything the retos handed
      to it, which the derived absences then count again. */
  function BuildSnapshotWithRetoDistributionAsWritten(weeks: seq<Week>, identity: Identity, legend: Legend, percentages: Percentages,
                                                      retoTargets: AList<AList<bool>>, hpm: AList<real>): (r: Snapshot)
    ensures var base := Scraper.BuildSnapshot(weeks, identity, legend, percentages);
      var dist := DistributeAll(base.aggregated, legend, retoTargets, hpm);
      && r.identity == identity && r.legend == legend && r.percentages == percentages && r.weeks == weeks
      && r.retos == None
      && r.aggregated.absenceTotals == base.aggregated.absenceTotals
      && r.aggregated.modules == dist.modules
      && r.coeficientes == Some(dist.coeficientes)
      && r.moduleCalculations.Some?
      && Keys(r.moduleCalculations.value) == NonRetoKeys(base.aggregated, legend)
    ensures DirectCountsDistributed(Scraper.BuildSnapshot(weeks, identity, legend, percentages).aggregated, legend, retoTargets, hpm,
                                    r.moduleCalculations.value)
  {
    var base := Scraper.BuildSnapshot(weeks, identity, legend, percentages);
    var dist := DistributeAll(base.aggregated, legend, retoTargets, hpm);
    WellformedCountsUnique(base.aggregated);
    AsWrittenSummaries(base.aggregated, legend, retoTargets, hpm);
    Assemble(base, dist, CalcsAsWritten(dist, NonRetoKeys(base.aggregated, legend)))
  }

  /** The same pass corrected: each summary's direct absences are taken
      from the base aggregate, so they are the module's own non-"J"
      absences and a distributed absence is counted once, as a derived
      one. Everything else is as in the pass as written. */
  function BuildSnapshotWithRetoDistributionCorrected(weeks: seq<Week>, identity: Identity, legend: Legend, percentages: Percentages,
                                                      retoTargets: AList<AList<bool>>, hpm: AList<real>): (r: Snapshot)
    ensures var base := Scraper.BuildSnapshot(weeks, identity, legend, percentages);
      var dist := DistributeAll(base.aggregated, legend, retoTargets, hpm);
      && r.identity == identity && r.legend == legend && r.percentages == percentages && r.weeks == weeks
      && r.retos == None
      && r.aggregated.absenceTotals == base.aggregated.absenceTotals
      && r.aggregated.modules == dist.modules
      && r.coeficientes == Some(dist.coeficientes)
      && r.moduleCalculations.Some?
      && Keys(r.moduleCalculations.value) == NonRetoKeys(base.aggregated, legend)
    ensures var agg := Scraper.BuildSnapshot(weeks, identity, legend, percentages).aggregated;
      var calcs := r.moduleCalculations.value;
      forall i :: 0 <= i < |calcs| ==> calcs[i].1.faltasDirectas == Some(FaltasAt(agg.modules, calcs[i].0) as real)
  {
    var base := Scraper.BuildSnapshot(weeks, identity, legend, percentages);
    var dist := DistributeAll(base.aggregated, legend, retoTargets, hpm);
    CorrectedSummaries(base.aggregated, legend, retoTargets, hpm);
    Assemble(base, dist, CalcsCorrected(base.aggregated.modules, dist, NonRetoKeys(base.aggregated, legend)))
  }

  // ---- what the pass promises ----

  /** Every module has one count per absence code, as in a JavaScript
      object. */
  predicate CountsUnique(m: AList<ModuleStats>) {
    forall i :: 0 <= i < |m| ==> UniqueKeys(m[i].1.absenceCounts)
  }

  /** The aggregate the scraper builds has that property. */
  lemma WellformedCountsUnique(agg: Aggregated)
    requires Aggregation.Wellformed(agg)
    ensures CountsUnique(agg.modules)
  {
  }

  /** So does every module looked up in it, present or not. */
  lemma StatsAtUnique(m: AList<ModuleStats>, k: string)
    requires CountsUnique(m)
    ensures UniqueKeys(StatsAt(m, k).absenceCounts)
  {
    if Get(m, k).Some? {
      var i :| 0 <= i < |m| && m[i] == (k, Get(m, k).value);
    }
  }

  /** What a reto hands to module `k` over the whole pass. */
  function AddedInPass(agg: Aggregated, legend: Legend, retoTargets: AList<AList<bool>>, hpm: AList<real>, k: string): nat {
    AddedByRetos(RetoKeys(agg, legend), NonRetoKeys(agg, legend), agg.modules, retoTargets, hpm, k)
  }

  /** Over a well-formed aggregate, a module's non-"J" absences grow by
      exactly what the retos hand it, which is nothing for a module outside
      the non-reto list. */
  lemma DistributeAllFaltas(agg: Aggregated, legend: Legend, retoTargets: AList<AList<bool>>, hpm: AList<real>, k: string)
    requires CountsUnique(agg.modules)
    ensures var added := AddedInPass(agg, legend, retoTargets, hpm, k);
      && FaltasAt(DistributeAll(agg, legend, retoTargets, hpm).modules, k) == FaltasAt(agg.modules, k) + added
      && (k !in NonRetoKeys(agg, legend) ==> added == 0)
  {
    var retos := RetoKeys(agg, legend);
    var nonReto := NonRetoKeys(agg, legend);
    StatsAtUnique(agg.modules, k);
    DistributeRetosFaltas(Distributed(agg.modules, []), retos, nonReto, agg.modules, retoTargets, hpm, k);
    if k !in nonReto {
      AddedByRetosOutside(retos, nonReto, agg.modules, retoTargets, hpm, k);
    }
  }

  /** The distribution: every module keeps its classes and every code but
      "F", "F" grows by what the retos hand out, and a coefficient table is
      recorded exactly for the retos with at least one target. */
  lemma DistributeAllMeaning(agg: Aggregated, legend: Legend, retoTargets: AList<AList<bool>>, hpm: AList<real>, k: string, c: string)
    ensures var r := DistributeAll(agg, legend, retoTargets, hpm);
      && ClassesAt(r.modules, k) == ClassesAt(agg.modules, k)
      && CountAt(r.modules, k, c) == CountAt(agg.modules, k, c) + (if c == "F" then AddedInPass(agg, legend, retoTargets, hpm, k) else 0)
      && (HasKey(r.coeficientes, k) <==> k in RetoKeys(agg, legend) && |RetoTargets(NonRetoKeys(agg, legend), retoTargets, k)| > 0)
  {
    var acc := Distributed(agg.modules, []);
    DistributeRetosEffect(acc, RetoKeys(agg, legend), NonRetoKeys(agg, legend), agg.modules, retoTargets, hpm, k, c);
    assert !HasKey(acc.coeficientes, k);
  }

  /** Every derived figure is a sum of non-negative rounded products. */
  lemma {:induction false} DerivedNonNegative(modules: AList<ModuleStats>, coeficientes: AList<AList<real>>, code: string)
    ensures DerivedFaltas(modules, coeficientes, code) >= 0.0
    ensures DerivedClasses(modules, coeficientes, code) >= 0.0
  {
    if |coeficientes| > 0 {
      var c := CoefOf(coeficientes[0].1, code);
      Round2OfInt(0);
      if c > 0.0 {
        var f, n := FaltasAt(modules, coeficientes[0].0) as real, ClassesAt(modules, coeficientes[0].0) as real;
        MulNonNegative(f, c);
        MulNonNegative(n, c);
        Round2Monotone(0.0, f * c);
        Round2Monotone(0.0, n * c);
      }
      DerivedNonNegative(modules, coeficientes[1..], code);
    }
  }

  /** A summary: the direct figures are whole numbers taken as they are,
      each total is the direct and derived figures added and rounded once to
      two decimals and is never below its direct part, the rounded derived
      parts stay non-negative, and the session fields are absent. */
  lemma SummaryMeaning(directas: nat, fd: real, classes: nat, ad: real)
    requires fd >= 0.0 && ad >= 0.0
    ensures var r := Summary(directas, fd, classes, ad);
      && r.faltasDirectas == Some(directas as real)
      && r.faltasDerivadas == Some(Round2(fd)) && Round2(fd) >= 0.0
      && r.totalFaltas == Some(Round2(directas as real + fd)) && Round2(directas as real + fd) >= directas as real
      && r.asistenciasDirectas == Some(classes as real)
      && r.asistenciasDerivadas == Some(Round2(ad)) && Round2(ad) >= 0.0
      && r.totalAsistencias == Some(Round2(classes as real + ad)) && Round2(classes as real + ad) >= classes as real
      && r.sesionesDirectas == None && r.sesionesDerivadas == None && r.totalSesiones == None
  {
    Round2OfInt(0);
    Round2OfInt(directas);
    Round2OfInt(classes);
    Round2Monotone(0.0, fd);
    Round2Monotone(0.0, ad);
    Round2Monotone(directas as real, directas as real + fd);
    Round2Monotone(classes as real, classes as real + ad);
  }

  /** The summary of the `i`-th module takes its direct absences from
      `direct`. */
  lemma CalcsDirect(direct: AList<ModuleStats>, dist: Distributed, nonReto: seq<string>, i: nat, n: nat)
    requires i < |nonReto| && FaltasAt(direct, nonReto[i]) == n
    ensures var calcs := Calcs(direct, dist, nonReto);
      && i < |calcs| && calcs[i].0 == nonReto[i]
      && calcs[i].1.faltasDirectas == Some(n as real)
  {
    assert Calcs(direct, dist, nonReto)[i].1 == CalcOf(direct, dist, nonReto[i]);
  }

  /** As written, the summary of a non-reto module of a well-formed
      aggregate is read from the distributed modules, so its direct absences
      are its own non-"J" absences plus everything the retos handed to it. */
  lemma AsWrittenDirectIncludesDistributed(agg: Aggregated, legend: Legend, retoTargets: AList<AList<bool>>, hpm: AList<real>, i: nat)
    requires CountsUnique(agg.modules)
    requires i < |NonRetoKeys(agg, legend)|
    ensures var k := NonRetoKeys(agg, legend)[i];
      var calcs := CalcsAsWritten(DistributeAll(agg, legend, retoTargets, hpm), NonRetoKeys(agg, legend));
      && i < |calcs| && calcs[i].0 == k
      && calcs[i].1.faltasDirectas == Some(DirectAsWritten(agg, legend, retoTargets, hpm, k))
  {
    var nonReto := NonRetoKeys(agg, legend);
    var k := nonReto[i];
    var dist := DistributeAll(agg, legend, retoTargets, hpm);
    var n := FaltasAt(agg.modules, k) + AddedInPass(agg, legend, retoTargets, hpm, k);
    assert FaltasAt(dist.modules, k) == n by {
      DistributeAllFaltas(agg, legend, retoTargets, hpm, k);
    }
    CalcsDirect(dist.modules, dist, nonReto, i, n);
    assert DirectAsWritten(agg, legend, retoTargets, hpm, k) == n as real;
  }

  /** Corrected, the summary of a non-reto module takes its direct absences
      from the base aggregate: its own non-"J" absences. */
  lemma CorrectedDirectIsOwn(agg: Aggregated, legend: Legend, retoTargets: AList<AList<bool>>, hpm: AList<real>, i: nat)
    requires i < |NonRetoKeys(agg, legend)|
    ensures var k := NonRetoKeys(agg, legend)[i];
      var calcs := CalcsCorrected(agg.modules, DistributeAll(agg, legend, retoTargets, hpm), NonRetoKeys(agg, legend));
      && i < |calcs| && calcs[i].0 == k
      && calcs[i].1.faltasDirectas == Some(FaltasAt(agg.modules, k) as real)
  {
    var k := NonRetoKeys(agg, legend)[i];
    CalcsDirect(agg.modules, DistributeAll(agg, legend, retoTargets, hpm), NonRetoKeys(agg, legend), i, FaltasAt(agg.modules, k));
  }

  /** The direct absences as written: a module's own non-"J" absences and
      what the retos handed it. */
  function DirectAsWritten(agg: Aggregated, legend: Legend, retoTargets: AList<AList<bool>>, hpm: AList<real>, k: string): real {
    (FaltasAt(agg.modules, k) + AddedInPass(agg, legend, retoTargets, hpm, k)) as real
  }

  predicate DirectCountsDistributed(agg: Aggregated, legend: Legend, retoTargets: AList<AList<bool>>, hpm: AList<real>,
                                    calcs: AList<ModuleCalc>) {
    forall i :: 0 <= i < |calcs| ==> calcs[i].1.faltasDirectas == Some(DirectAsWritten(agg, legend, retoTargets, hpm, calcs[i].0))
  }

  /** Every summary as written counts the module's own absences and what
      the retos handed it as direct. */
  lemma AsWrittenSummaries(agg: Aggregated, legend: Legend, retoTargets: AList<AList<bool>>, hpm: AList<real>)
    requires CountsUnique(agg.modules)
    ensures DirectCountsDistributed(agg, legend, retoTargets, hpm,
                                    CalcsAsWritten(DistributeAll(agg, legend, retoTargets, hpm), NonRetoKeys(agg, legend)))
  {
    var nonReto := NonRetoKeys(agg, legend);
    var calcs := CalcsAsWritten(DistributeAll(agg, legend, retoTargets, hpm), nonReto);
    assert |calcs| == |nonReto|;
    forall i | 0 <= i < |calcs|
      ensures calcs[i].1.faltasDirectas == Some(DirectAsWritten(agg, legend, retoTargets, hpm, calcs[i].0))
    {
      AsWrittenDirectIncludesDistributed(agg, legend, retoTargets, hpm, i);
      assert calcs[i].0 == nonReto[i];
    }
  }

  /** Every corrected summary counts only the module's own absences as
      direct. */
  lemma CorrectedSummaries(agg: Aggregated, legend: Legend, retoTargets: AList<AList<bool>>, hpm: AList<real>)
    ensures var calcs := CalcsCorrected(agg.modules, DistributeAll(agg, legend, retoTargets, hpm), NonRetoKeys(agg, legend));
      forall i :: 0 <= i < |calcs| ==> calcs[i].1.faltasDirectas == Some(FaltasAt(agg.modules, calcs[i].0) as real)
  {
    var calcs := CalcsCorrected(agg.modules, DistributeAll(agg, legend, retoTargets, hpm), NonRetoKeys(agg, legend));
    forall i | 0 <= i < |calcs|
      ensures calcs[i].1.faltasDirectas == Some(FaltasAt(agg.modules, calcs[i].0) as real)
    {
      CorrectedDirectIsOwn(agg, legend, retoTargets, hpm, i);
    }
  }

  /** The base aggregate of the example below. */
  const ExampleBase: AList<ModuleStats> := [("R", ModuleStats(2, [("F", 2)])), ("M", ModuleStats(10, []))]

  /** The modules after the example's distribution. */
  const ExampleMoved: AList<ModuleStats> := [("R", ModuleStats(2, [("F", 2)])), ("M", ModuleStats(10, [("F", 2)]))]

  /** Reto "R" of the example, with no targets chosen and no hours, gives
      "M" the whole coefficient and both of its absences. */
  lemma ExampleDistribution()
    ensures DistributeRetos(Distributed(ExampleBase, []), ["R"], ["M"], ExampleBase, [], [])
         == Distributed(ExampleMoved, [("R", [("M", 1.0)])])
  {
    var ts := RetoTargets(["M"], [], "R");
    assert ts == ["M"];
    assert SumHours(ts, []) == 0.0 by { assert SumHours(ts, []) == SumHours([], []) + HoursOf([], "M"); }
    Round2OfInt(1);
    var coefs := Coefficients(ts, []);
    assert coefs == [("M", 1.0)];
    assert RetoFaltas(ExampleBase, "R") == 2;
    assert Portion(2, coefs, "M") == 2;
  }

  /** The summaries of "M" in the example, as written and corrected. */
  lemma ExampleSummaries()
    ensures var dist := Distributed(ExampleMoved, [("R", [("M", 1.0)])]);
      && CalcOf(ExampleMoved, dist, "M") == Summary(2, 2.0, 10, DerivedClasses(ExampleMoved, dist.coeficientes, "M"))
      && CalcOf(ExampleBase, dist, "M") == Summary(0, 2.0, 10, DerivedClasses(ExampleMoved, dist.coeficientes, "M"))
      && DerivedClasses(ExampleMoved, dist.coeficientes, "M") >= 0.0
  {
    var dist := Distributed(ExampleMoved, [("R", [("M", 1.0)])]);
    Round2OfInt(2);
    assert DerivedFaltas(ExampleMoved, dist.coeficientes, "M") == 2.0;
    assert FaltasAt(ExampleMoved, "M") == 2;
    assert FaltasAt(ExampleBase, "M") == 0;
    DerivedNonNegative(ExampleMoved, dist.coeficientes, "M");
  }

  /** One reto "R" with two "F" absences and one ordinary module "M" with
      none: as written the summary of "M" counts the two absences twice,
      once as direct and once as derived; corrected it counts them once. */
  lemma DoubleCountExample()
    ensures var dist := DistributeRetos(Distributed(ExampleBase, []), ["R"], ["M"], ExampleBase, [], []);
      && CalcsAsWritten(dist, ["M"])[0].1.totalFaltas == Some(4.0)
      && CalcsCorrected(ExampleBase, dist, ["M"])[0].1.totalFaltas == Some(2.0)
  {
    ExampleDistribution();
    ExampleSummaries();
    var dist := Distributed(ExampleMoved, [("R", [("M", 1.0)])]);
    var ad := DerivedClasses(ExampleMoved, dist.coeficientes, "M");
    SummaryMeaning(2, 2.0, 10, ad);
    SummaryMeaning(0, 2.0, 10, ad);
    Round2OfInt(4);
    Round2OfInt(2);
    assert CalcsAsWritten(dist, ["M"])[0].1 == CalcOf(ExampleMoved, dist, "M");
    assert CalcsCorrected(ExampleBase, dist, ["M"])[0].1 == CalcOf(ExampleBase, dist, "M");
  }
}
