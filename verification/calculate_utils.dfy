/** The what-if projections of `lib/server/calculateUtils.ts`: the base
    figures of a module, the general totals, the reto projection and the
    projection of a plan of future absences and attendances. */
module CalculateUtils {
  import opened Wrappers
  import opened Assoc
  import opened Num
  import opened Calculations
  import opened SnapshotModel
  import RetoDistribution

  /** `sumarFaltas`, which the file imports from a module that does not
      define it; every operation that calls it takes it as a parameter. */
  type Sumar = Option<AList<nat>> -> real

  /** `x || 0` on an optional figure. */
  function Or0(x: Option<real>): real { if x.Some? then x.value else 0.0 }

  /** `moduleCalculations?.[code]` */
  function CalcFor(snap: Snapshot, code: string): Option<ModuleCalc> {
    if snap.moduleCalculations.Some? then Get(snap.moduleCalculations.value, code) else None
  }

  /** `(sesionesDirectas || 0) + (sesionesDerivadas || 0)` */
  function SessionsOf(c: ModuleCalc): real { Or0(c.sesionesDirectas) + Or0(c.sesionesDerivadas) }

  /** `m?.totalFaltas || 0` */
  function TotalFaltasOf(c: ModuleCalc): real { Or0(c.totalFaltas) }

  // ---- getModuleBaseStats ----

  datatype BaseStats = BaseStats(classes: real, absences: real)

  /** `getModuleBaseStats`: with a summary, classes are its session fields
      (missing ones count 0) and absences its `totalFaltas` whenever that is
      present, even when it is 0; `sumarFaltas` of the module's counts is
      used only when it is absent. Without a summary, classes are the
      aggregate's `classesGiven` (0 for an unknown module). */
  function GetModuleBaseStats(snap: Snapshot, code: string, sumar: Sumar): (r: BaseStats)
    ensures CalcFor(snap, code).None? ==>
      r == BaseStats(ClassesOf(snap.aggregated, code) as real, sumar(CountsOf(snap.aggregated, code)))
    ensures CalcFor(snap, code).Some? ==> r.classes == SessionsOf(CalcFor(snap, code).value)
    ensures CalcFor(snap, code).Some? && CalcFor(snap, code).value.totalFaltas.Some? ==>
      r.absences == CalcFor(snap, code).value.totalFaltas.value
    ensures CalcFor(snap, code).Some? && CalcFor(snap, code).value.totalFaltas.None? ==>
      r.absences == sumar(CountsOf(snap.aggregated, code))
  {
    match CalcFor(snap, code)
    case Some(c) =>
      BaseStats(SessionsOf(c), if c.totalFaltas.Some? then c.totalFaltas.value else sumar(CountsOf(snap.aggregated, code)))
    case None =>
      BaseStats(ClassesOf(snap.aggregated, code) as real, sumar(CountsOf(snap.aggregated, code)))
  }

  /** The same with the classes read from the fields the reto distribution
      writes, `asistenciasDirectas + asistenciasDerivadas`. */
  function GetModuleBaseStatsCorrected(snap: Snapshot, code: string, sumar: Sumar): (r: BaseStats)
    ensures CalcFor(snap, code).None? ==> r == GetModuleBaseStats(snap, code, sumar)
    ensures r.absences == GetModuleBaseStats(snap, code, sumar).absences
  {
    match CalcFor(snap, code)
    case Some(c) =>
      BaseStats(Or0(c.asistenciasDirectas) + Or0(c.asistenciasDerivadas),
                if c.totalFaltas.Some? then c.totalFaltas.value else sumar(CountsOf(snap.aggregated, code)))
    case None =>
      BaseStats(ClassesOf(snap.aggregated, code) as real, sumar(CountsOf(snap.aggregated, code)))
  }

  // ---- sumGeneral ----

  datatype GeneralTotals = GeneralTotals(totalSessions: real, totalAbsences: real)

  function ClassesAsReal(m: ModuleStats): real { m.classesGiven as real }

  /** `sumGeneral`: with summaries, the sums of their session fields and of
      their `totalFaltas`; without, the sum of `classesGiven` and
      `sumarFaltas` of the absence totals. */
  function SumGeneral(snap: Snapshot, sumar: Sumar): (r: GeneralTotals)
    ensures snap.moduleCalculations.None? ==>
      r.totalSessions == SumReal(snap.aggregated.modules, ClassesAsReal)
      && r.totalAbsences == sumar(Some(snap.aggregated.absenceTotals))
    ensures snap.moduleCalculations.Some? ==>
      r.totalSessions == SumReal(snap.moduleCalculations.value, SessionsOf)
      && r.totalAbsences == SumReal(snap.moduleCalculations.value, TotalFaltasOf)
  {
    match snap.moduleCalculations
    case Some(calcs) => GeneralTotals(SumReal(calcs, SessionsOf), SumReal(calcs, TotalFaltasOf))
    case None => GeneralTotals(SumReal(snap.aggregated.modules, ClassesAsReal), sumar(Some(snap.aggregated.absenceTotals)))
  }

  /** The same with the session sum read from the fields the reto
      distribution writes. */
  function SumGeneralCorrected(snap: Snapshot, sumar: Sumar): (r: GeneralTotals)
    ensures snap.moduleCalculations.None? ==> r == SumGeneral(snap, sumar)
    ensures r.totalAbsences == SumGeneral(snap, sumar).totalAbsences
  {
    match snap.moduleCalculations
    case Some(calcs) => GeneralTotals(SumReal(calcs, AttendedOf), SumReal(calcs, TotalFaltasOf))
    case None => SumGeneral(snap, sumar)
  }

  /** `(asistenciasDirectas || 0) + (asistenciasDerivadas || 0)` */
  function AttendedOf(c: ModuleCalc): real { Or0(c.asistenciasDirectas) + Or0(c.asistenciasDerivadas) }

  // ---- buildBaseByModule ----

  datatype BaseEntry = BaseEntry(sessions: real, absences: real, moduleLabel: string)

  /** `out[code]` of `buildBaseByModule`. */
  function BaseEntryOf(snap: Snapshot, code: string, sumar: Sumar): BaseEntry {
    var base := GetModuleBaseStats(snap, code, sumar);
    BaseEntry(base.classes, base.absences, ModuleLabel(snap.legend, code))
  }

  /** The loop of `buildBaseByModule` over the first codes. */
  function BaseFor(snap: Snapshot, codes: seq<string>, sumar: Sumar): (r: AList<BaseEntry>)
    ensures forall k :: Get(r, k) == if k in codes then Some(BaseEntryOf(snap, k, sumar)) else None
    ensures forall k :: HasKey(r, k) <==> k in codes
  {
    if |codes| == 0 then []
    else
      var prev := BaseFor(snap, codes[..|codes| - 1], sumar);
      var k := codes[|codes| - 1];
      assert forall x :: x in codes <==> x in codes[..|codes| - 1] || x == k;
      Put(prev, k, BaseEntryOf(snap, k, sumar))
  }

  /** `buildBaseByModule`: one entry per aggregated module, holding its base
      figures and its label; no other key. */
  function BuildBaseByModule(snap: Snapshot, sumar: Sumar): (r: AList<BaseEntry>)
    ensures forall k :: Get(r, k) == if HasKey(snap.aggregated.modules, k) then Some(BaseEntryOf(snap, k, sumar)) else None
  {
    BaseFor(snap, Keys(snap.aggregated.modules), sumar)
  }

  // ---- computeRetoProjection ----

  datatype Projection = Projection(current: real, projected: real)

  /** `computeRetoProjection`: the module's own figures count twice, and a
      positive `added` weighted by `coef` is added once more to both. */
  function ComputeRetoProjection(moduleClasses: real, moduleAbsences: real, added: real, coef: real): (r: Projection)
    ensures r.current == CalcPercent(moduleAbsences, moduleClasses)
    ensures added <= 0.0 ==> r.projected == r.current
    ensures added > 0.0 ==>
      r.projected == CalcPercent(2.0 * moduleAbsences + added * coef, 2.0 * moduleClasses + added * coef)
  {
    var faltasProjected := if added > 0.0 then moduleAbsences + added * coef else moduleAbsences;
    var clasesProjected := if added > 0.0 then moduleClasses + added * coef else moduleClasses;
    var totalFaltas := moduleAbsences + faltasProjected;
    var totalSessions := moduleClasses + clasesProjected;
    PercentOfDoubled(moduleAbsences, moduleClasses);
    Projection(CalcPercent(moduleAbsences, moduleClasses), CalcPercent(totalFaltas, totalSessions))
  }

  /** Doubling both figures leaves the percentage as it is. */
  lemma PercentOfDoubled(abs: real, total: real)
    ensures CalcPercent(abs + abs, total + total) == CalcPercent(abs, total)
  {
    if total > 0.0 {
      DoubledRatio(abs, total);
    }
  }

  lemma DoubledRatio(a: real, t: real)
    requires t > 0.0
    ensures (a + a) / (t + t) == a / t
  {
  }

  // ---- computePlanProjection ----

  /** `scope` of a plan entry; anything else is ignored. */
  datatype Scope = GeneralScope | ModuleScope | RetoScope | OtherScope

  /** One `CalculationPlanEntry`: `isAbs` is `kind === "abs"`, `code` is
      `e.code || ""`, and `hours` is `None` when `Number(e.hours || 0)` is
      `NaN`. */
  datatype PlanEntry = PlanEntry(isAbs: bool, scope: Scope, code: string, hours: Option<real>)

  /** `Math.max(0, Number(e?.hours || 0))`, with `NaN` as 0 since the entry
      is skipped for both. */
  function EntryHours(e: PlanEntry): (r: real)
    ensures r >= 0.0
  {
    if e.hours.Some? then Max(0.0, e.hours.value) else 0.0
  }

  datatype Delta = Delta(sessions: real, absences: real)

  const NoDelta: Delta := Delta(0.0, 0.0)

  function AddDelta(a: Delta, b: Delta): Delta { Delta(a.sessions + b.sessions, a.absences + b.absences) }

  /** `Object.fromEntries(allModuleCodes.map(c => [c, zero]))` */
  function ZeroDeltas(codes: seq<string>): (r: AList<Delta>)
    ensures forall k :: Get(r, k) == if k in codes then Some(NoDelta) else None
    ensures UniqueKeys(r)
  {
    if |codes| == 0 then []
    else
      var prev := ZeroDeltas(codes[..|codes| - 1]);
      assert forall x :: x in codes <==> x in codes[..|codes| - 1] || x == codes[|codes| - 1];
      PutUnique(prev, codes[|codes| - 1], NoDelta);
      Put(prev, codes[|codes| - 1], NoDelta)
  }

  /** `deltaByModule[code].absences += hours` for an absence, the sessions
      otherwise. */
  function Bump(d: Delta, isAbs: bool, hours: real): Delta {
    if isAbs then d.(absences := d.absences + hours) else d.(sessions := d.sessions + hours)
  }

  /** `applyToModule`: only a code that has a delta is touched. */
  function ApplyToModule(deltas: AList<Delta>, code: string, isAbs: bool, hours: real): AList<Delta> {
    var d := Get(deltas, code);
    if d.Some? then Put(deltas, code, Bump(d.value, isAbs, hours)) else deltas
  }

  /** `addToModule`: positive sessions go to the sessions, positive absences
      to the absences. */
  function AddToModule(deltas: AList<Delta>, code: string, sessions: real, absences: real): AList<Delta> {
    var afterSessions := if sessions > 0.0 then ApplyToModule(deltas, code, false, sessions) else deltas;
    if absences > 0.0 then ApplyToModule(afterSessions, code, true, absences) else afterSessions
  }

  /** What `addToModule(code, sessions, absences)` adds to module `k`. */
  function AddedTo(code: string, sessions: real, absences: real, k: string): Delta {
    if k == code then Delta(if sessions > 0.0 then sessions else 0.0, if absences > 0.0 then absences else 0.0)
    else NoDelta
  }

  /** One module of a reto entry's coefficient table, given
      `h = hours * coef`: skipped unless positive. */
  function SpreadHours(deltas: AList<Delta>, code: string, h: real, isAbs: bool): AList<Delta> {
    if h <= 0.0 then deltas else AddToModule(deltas, code, h, if isAbs then h else 0.0)
  }

  /** The inner loop of a reto entry over its coefficient table. */
  function Spread(deltas: AList<Delta>, coefMap: AList<real>, hours: real, isAbs: bool): AList<Delta>
    decreases |coefMap|
  {
    if |coefMap| == 0 then deltas
    else Spread(SpreadHours(deltas, coefMap[0].0, hours * coefMap[0].1, isAbs), coefMap[1..], hours, isAbs)
  }

  /** What that adds to module `k`. */
  function SpreadHoursTo(code: string, h: real, isAbs: bool, k: string): Delta {
    if h <= 0.0 then NoDelta else AddedTo(code, h, if isAbs then h else 0.0, k)
  }

  /** What the coefficient table of a reto entry adds to module `k`. */
  function SpreadTo(coefMap: AList<real>, hours: real, isAbs: bool, k: string): Delta
    decreases |coefMap|
  {
    if |coefMap| == 0 then NoDelta
    else AddDelta(SpreadHoursTo(coefMap[0].0, hours * coefMap[0].1, isAbs, k), SpreadTo(coefMap[1..], hours, isAbs, k))
  }

  /** `coefAll[code] || {}` */
  function CoefMapOf(snap: Snapshot, code: string): AList<real> {
    if snap.coeficientes.Some? then GetOr(snap.coeficientes.value, code, []) else []
  }

  datatype PlanState = PlanState(deltas: AList<Delta>, extraSessions: real, extraAbsences: real)

  /** One iteration of the loop over the entries. */
  function PlanStep(snap: Snapshot, st: PlanState, e: PlanEntry): PlanState {
    var hours := EntryHours(e);
    var abs := if e.isAbs then hours else 0.0;
    if hours == 0.0 then st
    else if e.scope == GeneralScope then
      st.(extraSessions := st.extraSessions + hours, extraAbsences := st.extraAbsences + abs)
    else if e.code == "" then st
    else if e.scope == ModuleScope then
      st.(deltas := AddToModule(st.deltas, e.code, hours, abs))
    else if e.scope == RetoScope then
      st.(deltas := Spread(AddToModule(st.deltas, e.code, hours, abs), CoefMapOf(snap, e.code), hours, e.isAbs))
    else st
  }

  function PlanLoop(snap: Snapshot, st: PlanState, entries: seq<PlanEntry>): PlanState
    decreases |entries|
  {
    if |entries| == 0 then st else PlanLoop(snap, PlanStep(snap, st, entries[0]), entries[1..])
  }

  /** What one entry adds to module `k`, stated without the loop: a general
      entry, an entry without hours and a non-general entry without a code
      add nothing; a module entry adds to its own code; a reto entry adds to
      its own code and, weighted by each coefficient, to the modules of its
      table. */
  function EntryDelta(snap: Snapshot, e: PlanEntry, k: string): Delta {
    var hours := EntryHours(e);
    var abs := if e.isAbs then hours else 0.0;
    if hours == 0.0 || e.scope == GeneralScope || e.code == "" || e.scope == OtherScope then NoDelta
    else if e.scope == ModuleScope then AddedTo(e.code, hours, abs, k)
    else AddDelta(AddedTo(e.code, hours, abs, k), SpreadTo(CoefMapOf(snap, e.code), hours, e.isAbs, k))
  }

  function EntriesDelta(snap: Snapshot, entries: seq<PlanEntry>, k: string): Delta
    decreases |entries|
  {
    if |entries| == 0 then NoDelta else AddDelta(EntryDelta(snap, entries[0], k), EntriesDelta(snap, entries[1..], k))
  }

  /** What one entry adds to the general extras: its hours as sessions, and
      as absences too when it is an absence, for a general entry only. */
  function EntryExtra(e: PlanEntry): Delta {
    var hours := EntryHours(e);
    if hours == 0.0 || e.scope != GeneralScope then NoDelta
    else Delta(hours, if e.isAbs then hours else 0.0)
  }

  function EntriesExtra(entries: seq<PlanEntry>): Delta
    decreases |entries|
  {
    if |entries| == 0 then NoDelta else AddDelta(EntryExtra(entries[0]), EntriesExtra(entries[1..]))
  }

  // ---- the response ----

  datatype Figures = Figures(sessions: real, absences: real, percent: real)

  datatype ModuleProjection = ModuleProjection(code: string, moduleLabel: string, base: Figures, projected: Figures, delta: Figures)

  datatype GeneralProjection = GeneralProjection(base: Figures, projected: Figures, delta: Figures)

  datatype PlanResponse = PlanResponse(general: GeneralProjection, byModule: seq<ModuleProjection>)

  function DeltaSessions(d: Delta): real { d.sessions }

  function DeltaAbsences(d: Delta): real { d.absences }

  /** One row of `byModule`. */
  function ModuleRowOf(code: string, base: BaseEntry, d: Delta): (r: ModuleProjection)
    ensures r.code == code && r.moduleLabel == base.moduleLabel
    ensures r.base == Figures(base.sessions, base.absences, CalcPercent(base.absences, base.sessions))
    ensures r.projected.sessions == base.sessions + d.sessions && r.projected.absences == base.absences + d.absences
    ensures r.delta.sessions == r.projected.sessions - r.base.sessions
    ensures r.delta.absences == r.projected.absences - r.base.absences
    ensures r.delta.percent == r.projected.percent - r.base.percent
  {
    var projSessions := base.sessions + d.sessions;
    var projAbsences := base.absences + d.absences;
    ModuleProjection(
      code, base.moduleLabel,
      Figures(base.sessions, base.absences, CalcPercent(base.absences, base.sessions)),
      Figures(projSessions, projAbsences, CalcPercent(projAbsences, projSessions)),
      Figures(d.sessions, d.absences, CalcPercent(projAbsences, projSessions) - CalcPercent(base.absences, base.sessions)))
  }

  function ByModule(codes: seq<string>, baseByModule: AList<BaseEntry>, deltas: AList<Delta>): (r: seq<ModuleProjection>)
    ensures |r| == |codes|
    ensures forall i :: 0 <= i < |codes| ==>
      r[i] == ModuleRowOf(codes[i], GetOr(baseByModule, codes[i], BaseEntry(0.0, 0.0, codes[i])), GetOr(deltas, codes[i], NoDelta))
  {
    if |codes| == 0 then []
    else
      [ModuleRowOf(codes[0], GetOr(baseByModule, codes[0], BaseEntry(0.0, 0.0, codes[0])), GetOr(deltas, codes[0], NoDelta))]
        + ByModule(codes[1..], baseByModule, deltas)
  }

  function GeneralOf(base: GeneralTotals, moduleDeltas: Delta, extra: Delta): (r: GeneralProjection)
    ensures r.projected.sessions == base.totalSessions + moduleDeltas.sessions + extra.sessions
    ensures r.projected.absences == base.totalAbsences + moduleDeltas.absences + extra.absences
    ensures r.delta.sessions == r.projected.sessions - r.base.sessions
    ensures r.delta.absences == r.projected.absences - r.base.absences
    ensures r.delta.percent == r.projected.percent - r.base.percent
  {
    var projSessions := base.totalSessions + moduleDeltas.sessions + extra.sessions;
    var projAbsences := base.totalAbsences + moduleDeltas.absences + extra.absences;
    GeneralProjection(
      Figures(base.totalSessions, base.totalAbsences, CalcPercent(base.totalAbsences, base.totalSessions)),
      Figures(projSessions, projAbsences, CalcPercent(projAbsences, projSessions)),
      Figures(projSessions - base.totalSessions, projAbsences - base.totalAbsences,
              CalcPercent(projAbsences, projSessions) - CalcPercent(base.totalAbsences, base.totalSessions)))
  }

  /** The state after the loop over the entries, from a zero delta per
      aggregated module and no extras. */
  function PlanDeltas(snap: Snapshot, entries: seq<PlanEntry>): PlanState {
    PlanLoop(snap, PlanState(ZeroDeltas(Keys(snap.aggregated.modules)), 0.0, 0.0), entries)
  }

  /** `computePlanProjection` */
  function ComputePlanProjection(snap: Snapshot, entries: seq<PlanEntry>, sumar: Sumar): PlanResponse {
    var codes := Keys(snap.aggregated.modules);
    var baseByModule := BuildBaseByModule(snap, sumar);
    var fin := PlanDeltas(snap, entries);
    var moduleDeltas := Delta(SumReal(fin.deltas, DeltaSessions), SumReal(fin.deltas, DeltaAbsences));
    PlanResponse(
      GeneralOf(SumGeneral(snap, sumar), moduleDeltas, Delta(fin.extraSessions, fin.extraAbsences)),
      ByModule(codes, baseByModule, fin.deltas))
  }

  // ---- the plan, entry by entry ----

  /** A delta shifted by `d`, when the module has one. */
  function Shift(o: Option<Delta>, d: Delta): Option<Delta> {
    if o.Some? then Some(AddDelta(o.value, d)) else None
  }

  lemma ShiftTwice(o: Option<Delta>, a: Delta, b: Delta)
    ensures Shift(Shift(o, a), b) == Shift(o, AddDelta(a, b))
  {
  }

  lemma ApplyToModuleGet(deltas: AList<Delta>, code: string, isAbs: bool, hours: real, k: string)
    ensures Get(ApplyToModule(deltas, code, isAbs, hours), k)
      == Shift(Get(deltas, k), if k != code then NoDelta else if isAbs then Delta(0.0, hours) else Delta(hours, 0.0))
    ensures HasKey(ApplyToModule(deltas, code, isAbs, hours), k) <==> HasKey(deltas, k)
  {
  }

  lemma AddToModuleGet(deltas: AList<Delta>, code: string, sessions: real, absences: real, k: string)
    ensures Get(AddToModule(deltas, code, sessions, absences), k) == Shift(Get(deltas, k), AddedTo(code, sessions, absences, k))
  {
    var afterSessions := if sessions > 0.0 then ApplyToModule(deltas, code, false, sessions) else deltas;
    var s := if k == code && sessions > 0.0 then sessions else 0.0;
    var a := if k == code && absences > 0.0 then absences else 0.0;
    ApplyToModuleGet(deltas, code, false, sessions, k);
    assert Get(afterSessions, k) == Shift(Get(deltas, k), Delta(s, 0.0));
    ApplyToModuleGet(afterSessions, code, true, absences, k);
    assert Get(AddToModule(deltas, code, sessions, absences), k) == Shift(Get(afterSessions, k), Delta(0.0, a));
    ShiftTwice(Get(deltas, k), Delta(s, 0.0), Delta(0.0, a));
    assert AddedTo(code, sessions, absences, k) == Delta(s, a);
  }

  lemma SpreadHoursGet(deltas: AList<Delta>, code: string, h: real, isAbs: bool, k: string)
    ensures Get(SpreadHours(deltas, code, h, isAbs), k) == Shift(Get(deltas, k), SpreadHoursTo(code, h, isAbs, k))
  {
    if h > 0.0 {
      AddToModuleGet(deltas, code, h, if isAbs then h else 0.0, k);
    }
  }

  lemma SpreadHoursKeys(deltas: AList<Delta>, code: string, h: real, isAbs: bool)
    ensures Keys(SpreadHours(deltas, code, h, isAbs)) == Keys(deltas)
  {
    if h > 0.0 {
      AddToModuleKeys(deltas, code, h, if isAbs then h else 0.0);
    }
  }

  lemma {:induction false} SpreadGet(deltas: AList<Delta>, coefMap: AList<real>, hours: real, isAbs: bool, k: string)
    ensures Get(Spread(deltas, coefMap, hours, isAbs), k) == Shift(Get(deltas, k), SpreadTo(coefMap, hours, isAbs, k))
    decreases |coefMap|
  {
    if |coefMap| > 0 {
      var next := SpreadHours(deltas, coefMap[0].0, hours * coefMap[0].1, isAbs);
      SpreadHoursGet(deltas, coefMap[0].0, hours * coefMap[0].1, isAbs, k);
      SpreadGet(next, coefMap[1..], hours, isAbs, k);
      ShiftTwice(Get(deltas, k), SpreadHoursTo(coefMap[0].0, hours * coefMap[0].1, isAbs, k), SpreadTo(coefMap[1..], hours, isAbs, k));
    }
  }

  /** One entry shifts the delta of every module by what `EntryDelta`
      says, and the general extras by what `EntryExtra` says. */
  lemma PlanStepMeaning(snap: Snapshot, st: PlanState, e: PlanEntry, k: string)
    ensures Get(PlanStep(snap, st, e).deltas, k) == Shift(Get(st.deltas, k), EntryDelta(snap, e, k))
    ensures PlanStep(snap, st, e).extraSessions == st.extraSessions + EntryExtra(e).sessions
    ensures PlanStep(snap, st, e).extraAbsences == st.extraAbsences + EntryExtra(e).absences
  {
    var hours := EntryHours(e);
    var abs := if e.isAbs then hours else 0.0;
    if hours == 0.0 || e.scope == GeneralScope || e.code == "" || e.scope == OtherScope {
    } else if e.scope == ModuleScope {
      AddToModuleGet(st.deltas, e.code, hours, abs, k);
    } else {
      RetoStepGet(snap, st.deltas, e.code, e.isAbs, hours, k);
    }
  }

  lemma RetoStepGet(snap: Snapshot, deltas: AList<Delta>, code: string, isAbs: bool, hours: real, k: string)
    ensures var abs := if isAbs then hours else 0.0;
      Get(Spread(AddToModule(deltas, code, hours, abs), CoefMapOf(snap, code), hours, isAbs), k)
      == Shift(Get(deltas, k), AddDelta(AddedTo(code, hours, abs, k), SpreadTo(CoefMapOf(snap, code), hours, isAbs, k)))
  {
    var abs := if isAbs then hours else 0.0;
    var own := AddToModule(deltas, code, hours, abs);
    AddToModuleGet(deltas, code, hours, abs, k);
    SpreadGet(own, CoefMapOf(snap, code), hours, isAbs, k);
    ShiftTwice(Get(deltas, k), AddedTo(code, hours, abs, k), SpreadTo(CoefMapOf(snap, code), hours, isAbs, k));
  }

  /** The loop over the entries: each module's delta ends shifted by the sum
      of what every entry adds to it, a module without a delta never gains
      one, and the general extras are the sum of the general entries. */
  lemma {:induction false} PlanLoopMeaning(snap: Snapshot, st: PlanState, entries: seq<PlanEntry>, k: string)
    ensures Get(PlanLoop(snap, st, entries).deltas, k) == Shift(Get(st.deltas, k), EntriesDelta(snap, entries, k))
    ensures PlanLoop(snap, st, entries).extraSessions == st.extraSessions + EntriesExtra(entries).sessions
    ensures PlanLoop(snap, st, entries).extraAbsences == st.extraAbsences + EntriesExtra(entries).absences
    decreases |entries|
  {
    if |entries| > 0 {
      var next := PlanStep(snap, st, entries[0]);
      PlanStepMeaning(snap, st, entries[0], k);
      PlanLoopMeaning(snap, next, entries[1..], k);
      ShiftTwice(Get(st.deltas, k), EntryDelta(snap, entries[0], k), EntriesDelta(snap, entries[1..], k));
    }
  }

  /** A general entry adds nothing to any module. */
  lemma GeneralEntryTouchesNoModule(snap: Snapshot, e: PlanEntry, k: string)
    requires e.scope == GeneralScope
    ensures EntryDelta(snap, e, k) == NoDelta
    ensures EntryExtra(e) == Delta(EntryHours(e), if e.isAbs then EntryHours(e) else 0.0)
  {
  }

  /** A module entry adds its hours to its own module only: as sessions
      always, and as absences too when it is an absence. */
  lemma ModuleEntryDelta(snap: Snapshot, e: PlanEntry, k: string)
    requires e.scope == ModuleScope && e.code != ""
    ensures EntryExtra(e) == NoDelta
    ensures k != e.code ==> EntryDelta(snap, e, k) == NoDelta
    ensures k == e.code ==> EntryDelta(snap, e, k) == Delta(EntryHours(e), if e.isAbs then EntryHours(e) else 0.0)
  {
  }

  /** Each aggregated module ends with exactly what the entries add to it. */
  lemma PlanDeltaOf(snap: Snapshot, entries: seq<PlanEntry>, k: string)
    requires HasKey(snap.aggregated.modules, k)
    ensures Get(PlanDeltas(snap, entries).deltas, k) == Some(EntriesDelta(snap, entries, k))
  {
    var zero := ZeroDeltas(Keys(snap.aggregated.modules));
    PlanLoopMeaning(snap, PlanState(zero, 0.0, 0.0), entries, k);
    assert Get(zero, k) == Some(NoDelta);
  }

  lemma BaseOf(snap: Snapshot, sumar: Sumar, k: string)
    requires HasKey(snap.aggregated.modules, k)
    ensures GetOr(BuildBaseByModule(snap, sumar), k, BaseEntry(0.0, 0.0, k)) == BaseEntryOf(snap, k, sumar)
  {
  }

  /** `byModule[i]` of a plan: the `i`-th aggregated module with its base
      figures, and its projection shifted by the sum of what the entries
      add to it. */
  lemma PlanByModuleMeaning(snap: Snapshot, entries: seq<PlanEntry>, sumar: Sumar, i: nat)
    requires i < |snap.aggregated.modules|
    ensures var k := snap.aggregated.modules[i].0;
      var r := ComputePlanProjection(snap, entries, sumar);
      && |r.byModule| == |snap.aggregated.modules|
      && r.byModule[i] == ModuleRowOf(k, BaseEntryOf(snap, k, sumar), EntriesDelta(snap, entries, k))
  {
    var codes := Keys(snap.aggregated.modules);
    var k := codes[i];
    var fin := PlanDeltas(snap, entries);
    PlanDeltaOf(snap, entries, k);
    BaseOf(snap, sumar, k);
    var rows := ByModule(codes, BuildBaseByModule(snap, sumar), fin.deltas);
    assert rows[i] == ModuleRowOf(k, BaseEntryOf(snap, k, sumar), EntriesDelta(snap, entries, k));
  }

  lemma RowOfNoDelta(code: string, base: BaseEntry)
    ensures ModuleRowOf(code, base, NoDelta).projected == ModuleRowOf(code, base, NoDelta).base
    ensures ModuleRowOf(code, base, NoDelta).delta == Figures(0.0, 0.0, 0.0)
  {
  }

  lemma GeneralOfNoDelta(base: GeneralTotals)
    ensures GeneralOf(base, NoDelta, NoDelta).projected == GeneralOf(base, NoDelta, NoDelta).base
    ensures GeneralOf(base, NoDelta, NoDelta).delta == Figures(0.0, 0.0, 0.0)
  {
  }

  /** With no entries every projection equals its base and every delta is
      0. */
  lemma EmptyPlanChangesNothing(snap: Snapshot, sumar: Sumar, i: nat)
    requires i < |snap.aggregated.modules|
    ensures var r := ComputePlanProjection(snap, [], sumar);
      && r.byModule[i].projected == r.byModule[i].base
      && r.byModule[i].delta == Figures(0.0, 0.0, 0.0)
      && r.general.projected == r.general.base
      && r.general.delta == Figures(0.0, 0.0, 0.0)
  {
    var k := snap.aggregated.modules[i].0;
    PlanByModuleMeaning(snap, [], sumar, i);
    RowOfNoDelta(k, BaseEntryOf(snap, k, sumar));
    var fin := PlanDeltas(snap, []);
    ZeroDeltasSum(Keys(snap.aggregated.modules));
    assert Delta(SumReal(fin.deltas, DeltaSessions), SumReal(fin.deltas, DeltaAbsences)) == NoDelta;
    assert Delta(fin.extraSessions, fin.extraAbsences) == NoDelta;
    GeneralOfNoDelta(SumGeneral(snap, sumar));
  }

  lemma ZeroDeltasSum(codes: seq<string>)
    ensures SumReal(ZeroDeltas(codes), DeltaSessions) == 0.0
    ensures SumReal(ZeroDeltas(codes), DeltaAbsences) == 0.0
  {
    var z := ZeroDeltas(codes);
    forall i | 0 <= i < |z| ensures z[i].1 == NoDelta {
      GetEntry(z, i);
    }
    ZeroValues(z);
  }

  lemma {:induction false} ZeroValues(m: AList<Delta>)
    requires forall i :: 0 <= i < |m| ==> m[i].1 == NoDelta
    ensures SumReal(m, DeltaSessions) == 0.0 && SumReal(m, DeltaAbsences) == 0.0
  {
    if |m| > 0 {
      ZeroValues(m[1..]);
    }
  }

  // ---- the general projection ----

  /** The order of the deltas never changes: the loop only updates the
      modules it started with. */
  lemma ApplyToModuleKeys(deltas: AList<Delta>, code: string, isAbs: bool, hours: real)
    ensures Keys(ApplyToModule(deltas, code, isAbs, hours)) == Keys(deltas)
  {
    var d := Get(deltas, code);
    if d.Some? {
      PutKeys(deltas, code, Bump(d.value, isAbs, hours));
    }
  }

  lemma AddToModuleKeys(deltas: AList<Delta>, code: string, sessions: real, absences: real)
    ensures Keys(AddToModule(deltas, code, sessions, absences)) == Keys(deltas)
  {
    ApplyToModuleKeys(deltas, code, false, sessions);
    var afterSessions := if sessions > 0.0 then ApplyToModule(deltas, code, false, sessions) else deltas;
    ApplyToModuleKeys(afterSessions, code, true, absences);
  }

  lemma {:induction false} SpreadKeys(deltas: AList<Delta>, coefMap: AList<real>, hours: real, isAbs: bool)
    ensures Keys(Spread(deltas, coefMap, hours, isAbs)) == Keys(deltas)
    decreases |coefMap|
  {
    if |coefMap| > 0 {
      SpreadHoursKeys(deltas, coefMap[0].0, hours * coefMap[0].1, isAbs);
      SpreadKeys(SpreadHours(deltas, coefMap[0].0, hours * coefMap[0].1, isAbs), coefMap[1..], hours, isAbs);
    }
  }

  lemma PlanStepKeys(snap: Snapshot, st: PlanState, e: PlanEntry)
    ensures Keys(PlanStep(snap, st, e).deltas) == Keys(st.deltas)
  {
    var hours := EntryHours(e);
    var abs := if e.isAbs then hours else 0.0;
    AddToModuleKeys(st.deltas, e.code, hours, abs);
    SpreadKeys(AddToModule(st.deltas, e.code, hours, abs), CoefMapOf(snap, e.code), hours, e.isAbs);
  }

  lemma {:induction false} PlanLoopKeys(snap: Snapshot, st: PlanState, entries: seq<PlanEntry>)
    ensures Keys(PlanLoop(snap, st, entries).deltas) == Keys(st.deltas)
    decreases |entries|
  {
    if |entries| > 0 {
      PlanStepKeys(snap, st, entries[0]);
      PlanLoopKeys(snap, PlanStep(snap, st, entries[0]), entries[1..]);
    }
  }

  lemma {:induction false} ZeroDeltasKeys(codes: seq<string>)
    requires forall i, j :: 0 <= i < j < |codes| ==> codes[i] != codes[j]
    ensures Keys(ZeroDeltas(codes)) == codes
  {
    if |codes| > 0 {
      var init := codes[..|codes| - 1];
      ZeroDeltasKeys(init);
      PutKeys(ZeroDeltas(init), codes[|codes| - 1], NoDelta);
      assert codes == init + [codes[|codes| - 1]];
    }
  }

  /** The sum over `codes` of what the entries add to each. */
  function ModulesDelta(snap: Snapshot, entries: seq<PlanEntry>, codes: seq<string>): Delta
    decreases |codes|
  {
    if |codes| == 0 then NoDelta
    else AddDelta(EntriesDelta(snap, entries, codes[0]), ModulesDelta(snap, entries, codes[1..]))
  }

  lemma {:induction false} DeltasSumFrom(snap: Snapshot, entries: seq<PlanEntry>, m: AList<Delta>, j: nat)
    requires UniqueKeys(m) && j <= |m|
    requires forall k :: HasKey(m, k) ==> Get(m, k) == Some(EntriesDelta(snap, entries, k))
    ensures SumReal(m[j..], DeltaSessions) == ModulesDelta(snap, entries, Keys(m)[j..]).sessions
    ensures SumReal(m[j..], DeltaAbsences) == ModulesDelta(snap, entries, Keys(m)[j..]).absences
    decreases |m| - j
  {
    if j < |m| {
      GetEntry(m, j);
      assert HasKey(m, m[j].0) by { assert Keys(m)[j] == m[j].0; }
      assert m[j..][1..] == m[j + 1..];
      assert Keys(m)[j..][1..] == Keys(m)[j + 1..];
      DeltasSumFrom(snap, entries, m, j + 1);
    }
  }

  /** The general projection: the base totals, plus every aggregated
      module's delta counted once, plus the general entries. */
  lemma PlanGeneralMeaning(snap: Snapshot, entries: seq<PlanEntry>, sumar: Sumar)
    requires UniqueKeys(snap.aggregated.modules)
    ensures var r := ComputePlanProjection(snap, entries, sumar);
      var moved := ModulesDelta(snap, entries, Keys(snap.aggregated.modules));
      && r.general.projected.sessions
         == SumGeneral(snap, sumar).totalSessions + moved.sessions + EntriesExtra(entries).sessions
      && r.general.projected.absences
         == SumGeneral(snap, sumar).totalAbsences + moved.absences + EntriesExtra(entries).absences
  {
    var codes := Keys(snap.aggregated.modules);
    var zero := ZeroDeltas(codes);
    var fin := PlanDeltas(snap, entries);
    ZeroDeltasKeys(codes);
    PlanLoopKeys(snap, PlanState(zero, 0.0, 0.0), entries);
    PlanLoopMeaning(snap, PlanState(zero, 0.0, 0.0), entries, "");
    assert Keys(fin.deltas) == codes;
    assert UniqueKeys(fin.deltas) by {
      forall i, j | 0 <= i < j < |fin.deltas| ensures fin.deltas[i].0 != fin.deltas[j].0 {
        assert Keys(fin.deltas)[i] == codes[i] && Keys(fin.deltas)[j] == codes[j];
      }
    }
    forall k | HasKey(fin.deltas, k) ensures Get(fin.deltas, k) == Some(EntriesDelta(snap, entries, k)) {
      PlanDeltaOf(snap, entries, k);
    }
    DeltasSumFrom(snap, entries, fin.deltas, 0);
    assert fin.deltas[0..] == fin.deltas;
  }

  /** With only general entries no module moves: every module delta is 0
      and the general projection gains exactly the general hours. */
  lemma {:induction false} OnlyGeneralEntries(snap: Snapshot, entries: seq<PlanEntry>, k: string)
    requires forall i :: 0 <= i < |entries| ==> entries[i].scope == GeneralScope
    ensures EntriesDelta(snap, entries, k) == NoDelta
  {
    if |entries| > 0 {
      OnlyGeneralEntries(snap, entries[1..], k);
    }
  }

  // ---- the general totals against the base figures ----

  /** The sum over `codes` of the base sessions. */
  function BaseSessionsSum(snap: Snapshot, codes: seq<string>, sumar: Sumar): real
    decreases |codes|
  {
    if |codes| == 0 then 0.0 else BaseEntryOf(snap, codes[0], sumar).sessions + BaseSessionsSum(snap, codes[1..], sumar)
  }

  lemma {:induction false} ClassesSumFrom(snap: Snapshot, sumar: Sumar, j: nat)
    requires snap.moduleCalculations.None? && UniqueKeys(snap.aggregated.modules) && j <= |snap.aggregated.modules|
    ensures SumReal(snap.aggregated.modules[j..], ClassesAsReal)
      == BaseSessionsSum(snap, Keys(snap.aggregated.modules)[j..], sumar)
    decreases |snap.aggregated.modules| - j
  {
    var m := snap.aggregated.modules;
    if j < |m| {
      GetEntry(m, j);
      assert m[j..][1..] == m[j + 1..];
      assert Keys(m)[j..][1..] == Keys(m)[j + 1..];
      ClassesSumFrom(snap, sumar, j + 1);
    }
  }

  /** Without summaries the general session total is the sum of the
      per-module base sessions. */
  lemma GeneralSessionsAreModuleSessions(snap: Snapshot, sumar: Sumar)
    requires snap.moduleCalculations.None? && UniqueKeys(snap.aggregated.modules)
    ensures SumGeneral(snap, sumar).totalSessions == BaseSessionsSum(snap, Keys(snap.aggregated.modules), sumar)
  {
    ClassesSumFrom(snap, sumar, 0);
    assert snap.aggregated.modules[0..] == snap.aggregated.modules;
    assert Keys(snap.aggregated.modules)[0..] == Keys(snap.aggregated.modules);
  }

  // ---- the base figures of a snapshot with reto summaries ----

  lemma CalcsLookup(direct: AList<ModuleStats>, dist: RetoDistribution.Distributed, nonReto: seq<string>, k: string)
    requires k in nonReto
    ensures Get(RetoDistribution.Calcs(direct, dist, nonReto), k) == Some(RetoDistribution.CalcOf(direct, dist, k))
  {
    var calcs := RetoDistribution.Calcs(direct, dist, nonReto);
    assert HasKey(calcs, k);
    var v := Get(calcs, k).value;
    var i :| 0 <= i < |calcs| && calcs[i] == (k, v);
    assert Keys(calcs)[i] == k;
  }

  lemma CalcForAssembled(base: Snapshot, dist: RetoDistribution.Distributed, direct: AList<ModuleStats>,
                         nonReto: seq<string>, k: string)
    requires k in nonReto
    ensures var snap := RetoDistribution.Assemble(base, dist, RetoDistribution.Calcs(direct, dist, nonReto));
      && CalcFor(snap, k) == Some(RetoDistribution.CalcOf(direct, dist, k))
      && snap.aggregated.modules == dist.modules
  {
    CalcsLookup(direct, dist, nonReto, k);
  }

  /** As written: on a snapshot carrying the reto distribution's summaries
      the base classes of every non-reto module are 0, whatever classes it
      was given, because the summaries hold attendances and no session
      fields; the absences are the summary's rounded total. */
  lemma BaseClassesAsWritten(base: Snapshot, dist: RetoDistribution.Distributed, direct: AList<ModuleStats>,
                             nonReto: seq<string>, k: string, sumar: Sumar)
    requires k in nonReto
    ensures var snap := RetoDistribution.Assemble(base, dist, RetoDistribution.Calcs(direct, dist, nonReto));
      var fd := RetoDistribution.DerivedFaltas(dist.modules, dist.coeficientes, k);
      && GetModuleBaseStats(snap, k, sumar).classes == 0.0
      && GetModuleBaseStats(snap, k, sumar).absences == Round2(RetoDistribution.FaltasAt(direct, k) as real + fd)
  {
    CalcForAssembled(base, dist, direct, nonReto, k);
  }

  /** Corrected: reading the attendances instead, the base classes are the
      module's own classes plus its rounded derived classes, never fewer
      than it was given. */
  lemma BaseClassesCorrected(base: Snapshot, dist: RetoDistribution.Distributed, direct: AList<ModuleStats>,
                             nonReto: seq<string>, k: string, sumar: Sumar)
    requires k in nonReto
    ensures var snap := RetoDistribution.Assemble(base, dist, RetoDistribution.Calcs(direct, dist, nonReto));
      var dc := RetoDistribution.DerivedClasses(dist.modules, dist.coeficientes, k);
      && GetModuleBaseStatsCorrected(snap, k, sumar).classes == ClassesOf(snap.aggregated, k) as real + Round2(dc)
      && GetModuleBaseStatsCorrected(snap, k, sumar).classes >= ClassesOf(snap.aggregated, k) as real
  {
    CalcForAssembled(base, dist, direct, nonReto, k);
    var fd := RetoDistribution.DerivedFaltas(dist.modules, dist.coeficientes, k);
    var dc := RetoDistribution.DerivedClasses(dist.modules, dist.coeficientes, k);
    RetoDistribution.DerivedNonNegative(dist.modules, dist.coeficientes, k);
    RetoDistribution.SummaryMeaning(RetoDistribution.FaltasAt(direct, k), fd, RetoDistribution.ClassesAt(dist.modules, k), dc);
  }

  lemma {:induction false} SessionsSumZero(direct: AList<ModuleStats>, dist: RetoDistribution.Distributed, nonReto: seq<string>)
    ensures SumReal(RetoDistribution.Calcs(direct, dist, nonReto), SessionsOf) == 0.0
  {
    if |nonReto| > 0 {
      SessionsSumZero(direct, dist, nonReto[1..]);
    }
  }

  /** As written: the general session total of such a snapshot is 0. */
  lemma GeneralSessionsAsWritten(base: Snapshot, dist: RetoDistribution.Distributed, direct: AList<ModuleStats>,
                                 nonReto: seq<string>, sumar: Sumar)
    ensures var snap := RetoDistribution.Assemble(base, dist, RetoDistribution.Calcs(direct, dist, nonReto));
      SumGeneral(snap, sumar).totalSessions == 0.0
  {
    SessionsSumZero(direct, dist, nonReto);
  }

  /** The classes the listed modules were given. */
  function ClassesSum(modules: AList<ModuleStats>, codes: seq<string>): real
    decreases |codes|
  {
    if |codes| == 0 then 0.0 else RetoDistribution.ClassesAt(modules, codes[0]) as real + ClassesSum(modules, codes[1..])
  }

  lemma AttendedOfCalc(direct: AList<ModuleStats>, dist: RetoDistribution.Distributed, k: string)
    ensures AttendedOf(RetoDistribution.CalcOf(direct, dist, k)) >= RetoDistribution.ClassesAt(dist.modules, k) as real
  {
    var fd := RetoDistribution.DerivedFaltas(dist.modules, dist.coeficientes, k);
    var dc := RetoDistribution.DerivedClasses(dist.modules, dist.coeficientes, k);
    RetoDistribution.DerivedNonNegative(dist.modules, dist.coeficientes, k);
    RetoDistribution.SummaryMeaning(RetoDistribution.FaltasAt(direct, k), fd, RetoDistribution.ClassesAt(dist.modules, k), dc);
  }

  lemma {:induction false} AttendedSumAtLeast(direct: AList<ModuleStats>, dist: RetoDistribution.Distributed, nonReto: seq<string>)
    ensures SumReal(RetoDistribution.Calcs(direct, dist, nonReto), AttendedOf) >= ClassesSum(dist.modules, nonReto)
  {
    if |nonReto| > 0 {
      AttendedOfCalc(direct, dist, nonReto[0]);
      AttendedSumAtLeast(direct, dist, nonReto[1..]);
    }
  }

  /** Corrected: the general session total of such a snapshot is at least
      the classes its non-reto modules were given. */
  lemma GeneralSessionsCorrected(base: Snapshot, dist: RetoDistribution.Distributed, direct: AList<ModuleStats>,
                                 nonReto: seq<string>, sumar: Sumar)
    ensures var snap := RetoDistribution.Assemble(base, dist, RetoDistribution.Calcs(direct, dist, nonReto));
      SumGeneralCorrected(snap, sumar).totalSessions >= ClassesSum(dist.modules, nonReto)
  {
    AttendedSumAtLeast(direct, dist, nonReto);
  }
}
