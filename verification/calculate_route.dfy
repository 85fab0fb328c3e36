/** `GET /api/faltas/calculate` (`app/api/faltas/calculate/route.ts`): the
    current and projected absence percentages of the whole course and of
    one module, the per-module metadata, and for a reto the projection of
    its absences onto the modules it is distributed to. */
module CalculateRoute {
  import opened Wrappers
  import opened Assoc
  import opened Num
  import opened Calculations
  import opened SnapshotModel
  import CalculateUtils
  import Seqs

  /** The module value meaning "the whole course". */
  const General: string := "__general__"

  /** `searchParams.get("module") || "__general__"` */
  function SelectedModule(param: Option<string>): (r: string)
    ensures param.Some? && param.value != "" ==> r == param.value
    ensures param.None? || param.value == "" ==> r == General
  {
    if param.Some? && param.value != "" then param.value else General
  }

  /** `Number(searchParams.get("addedAbsences")) || 0`: a missing parameter
      is `Number(null)`, 0; text that is not a number is `NaN`, also 0. */
  function AddedAbsences(param: Option<string>): (r: real)
    ensures param.None? ==> r == 0.0
    ensures param.Some? && StringToNumber(param.value).NaN? ==> r == 0.0
    ensures param.Some? && StringToNumber(param.value).Finite? ==> r == StringToNumber(param.value).value
  {
    if param.None? then 0.0
    else match StringToNumber(param.value)
      case Finite(v) => v
      case _ => 0.0
  }

  /** Absence counts handed to `sumRecordValuesExcludingJ`. */
  function CountsRecord(c: Option<AList<nat>>): Option<AList<Number>> {
    if c.Some? then Some(CountsAsNumbers(c.value)) else None
  }

  /** The non-"J" absences of a module, 0 for an unknown one. */
  function DirectAbsences(snap: Snapshot, code: string): real {
    SumRecordValuesExcludingJ(CountsRecord(CountsOf(snap.aggregated, code)))
  }

  datatype Stats = Stats(totalSessions: real, totalAbsences: real, currentPercent: real, projectedPercent: real)

  /** Current figures and the projection that adds `added` absences and no
      session. */
  function StatsOf(sessions: real, absences: real, added: real): Stats {
    Stats(sessions, absences, CalcPercent(absences, sessions), CalcPercent(absences + added, sessions))
  }

  /** The whole course: the classes of every module, and the non-"J"
      absence totals. */
  function GeneralStats(snap: Snapshot, added: real): Stats {
    StatsOf(SumReal(snap.aggregated.modules, CalculateUtils.ClassesAsReal),
            SumRecordValuesExcludingJ(Some(CountsAsNumbers(snap.aggregated.absenceTotals))), added)
  }

  /** The selected module; "__general__" has no sessions and no absences. */
  function ModuleStatsOf(snap: Snapshot, selected: string, added: real): Stats {
    if selected == General then StatsOf(0.0, 0.0, added)
    else StatsOf(ClassesOf(snap.aggregated, selected) as real, DirectAbsences(snap, selected), added)
  }

  datatype Meta = Meta(code: string, moduleLabel: string, classes: nat, absDirectas: real, isReto: bool, group: Option<string>)

  function MetaOf(snap: Snapshot, code: string): Meta {
    var lbl := ModuleLabel(snap.legend, code);
    Meta(code, lbl, ClassesOf(snap.aggregated, code), DirectAbsences(snap, code),
         IsRetoModule(code, Some(lbl)), ExtractGroupToken(code, Some(lbl)))
  }

  /** `moduleMeta`: one entry per aggregated module, in key order. */
  function ModuleMeta(snap: Snapshot, codes: seq<string>): (r: seq<Meta>)
    ensures |r| == |codes|
    ensures forall i :: 0 <= i < |codes| ==> r[i] == MetaOf(snap, codes[i])
    ensures forall i :: 0 <= i < |r| ==> (r[i].group.Some? <==> r[i].isReto)
  {
    if |codes| == 0 then [] else [MetaOf(snap, codes[0])] + ModuleMeta(snap, codes[1..])
  }

  // ---- the reto analysis ----

  datatype RetoFigures = RetoFigures(current: real, projected: real, classes: nat)

  datatype RetoRow = RetoRow(code: string, moduleLabel: string, current: real, projected: real, classes: nat)

  datatype RetoAnalysis = RetoAnalysis(reto: RetoFigures, modules: seq<RetoRow>)

  /** `coeficientes[m] || 0` within the reto's table. */
  function CoefFor(table: AList<real>, m: string): real { GetOr(table, m, 0.0) }

  /** `snapshot.coeficientes?.[selectedModule] || {}` */
  function TableOf(snap: Snapshot, reto: string): AList<real> {
    if snap.coeficientes.Some? then GetOr(snap.coeficientes.value, reto, []) else []
  }

  /** The row of module `m`: its own absences plus the reto's, weighted by
      the coefficient, over its classes plus the reto's, weighted the same
      way; the projection adds `added` to the reto's absences. */
  function RowOf(snap: Snapshot, m: string, coef: real, retoDirect: real, retoClasses: real, added: real): RetoRow {
    var classes := ClassesOf(snap.aggregated, m);
    var direct := DirectAbsences(snap, m);
    var sessions := classes as real + retoClasses * coef;
    RetoRow(m, ModuleLabel(snap.legend, m),
            CalcPercent(direct + retoDirect * coef, sessions),
            CalcPercent(direct + (retoDirect + added) * coef, sessions),
            classes)
  }

  /** A module gets a row when it is not itself a reto and its coefficient
      is not 0. */
  predicate Eligible(snap: Snapshot, table: AList<real>, m: string) {
    !IsRetoModule(m, Some(ModuleLabel(snap.legend, m))) && CoefFor(table, m) != 0.0
  }

  function EligibleFn(snap: Snapshot, table: AList<real>): string -> bool {
    m => Eligible(snap, table, m)
  }

  /** The rows of the modules a reto is distributed to, in key order. */
  function RetoRows(snap: Snapshot, table: AList<real>, codes: seq<string>, retoDirect: real, retoClasses: real, added: real): (r: seq<RetoRow>)
    ensures forall i :: 0 <= i < |r| ==>
      r[i] == RowOf(snap, r[i].code, CoefFor(table, r[i].code), retoDirect, retoClasses, added)
    decreases |codes|
  {
    if |codes| == 0 then []
    else
      var rest := RetoRows(snap, table, codes[1..], retoDirect, retoClasses, added);
      var m := codes[0];
      if Eligible(snap, table, m) then [RowOf(snap, m, CoefFor(table, m), retoDirect, retoClasses, added)] + rest else rest
  }

  function RetoAnalysisOf(snap: Snapshot, selected: string, added: real): RetoAnalysis {
    var retoClasses := ClassesOf(snap.aggregated, selected);
    var retoDirect := DirectAbsences(snap, selected);
    RetoAnalysis(
      RetoFigures(CalcPercent(retoDirect, retoClasses as real), CalcPercent(retoDirect + added, retoClasses as real), retoClasses),
      RetoRows(snap, TableOf(snap, selected), Keys(snap.aggregated.modules), retoDirect, retoClasses as real, added))
  }

  /** The selected module is a reto by its code and its legend label (the
      code when it has none). */
  predicate SelectedIsReto(snap: Snapshot, selected: string) {
    selected != General && IsRetoModule(selected, Some(ModuleLabel(snap.legend, selected)))
  }

  // ---- the handler ----

  datatype CalculateResponse = CalculateResponse(
    general: Stats,
    moduleFigures: Stats,
    retoAnalysis: Option<RetoAnalysis>,
    moduleMeta: seq<Meta>)

  /** 400 without a DNI, 500 when the snapshot cannot be loaded, 200 with
      the figures otherwise. */
  datatype Reply = BadRequest | ServerError | Ok(body: CalculateResponse)

  /** The response for a loaded snapshot. */
  function Respond(snap: Snapshot, selected: string, added: real): CalculateResponse {
    CalculateResponse(
      GeneralStats(snap, added),
      ModuleStatsOf(snap, selected, added),
      if SelectedIsReto(snap, selected) then Some(RetoAnalysisOf(snap, selected, added)) else None,
      ModuleMeta(snap, Keys(snap.aggregated.modules)))
  }

  /** `GET`: `load` is `loadProcessedSnapshot`, `None` when it throws. */
  function HandleGet(dni: Option<string>, moduleParam: Option<string>, addedParam: Option<string>,
               load: string -> Option<Snapshot>): (r: Reply)
    ensures dni.None? || dni.value == "" ==> r == BadRequest
    ensures dni.Some? && dni.value != "" && load(dni.value).None? ==> r == ServerError
    ensures dni.Some? && dni.value != "" && load(dni.value).Some? ==>
      r == Ok(Respond(load(dni.value).value, SelectedModule(moduleParam), AddedAbsences(addedParam)))
    ensures r.Ok? ==>
      && dni.Some? && load(dni.value).Some?
      && r.body.moduleMeta == ModuleMeta(load(dni.value).value, Keys(load(dni.value).value.aggregated.modules))
      && (r.body.retoAnalysis.Some? <==> SelectedIsReto(load(dni.value).value, SelectedModule(moduleParam)))
  {
    if dni.None? || dni.value == "" then BadRequest
    else match load(dni.value)
      case None => ServerError
      case Some(snap) => Ok(Respond(snap, SelectedModule(moduleParam), AddedAbsences(addedParam)))
  }

  // ---- what the handler promises ----

  /** Adding absences never lowers a projection, and adding none leaves it
      at the current percentage. */
  lemma StatsNotLower(sessions: real, absences: real, added: real)
    ensures added >= 0.0 ==> StatsOf(sessions, absences, added).projectedPercent >= StatsOf(sessions, absences, added).currentPercent
    ensures added == 0.0 ==> StatsOf(sessions, absences, added).projectedPercent == StatsOf(sessions, absences, added).currentPercent
  {
    if added >= 0.0 {
      CalcPercentMonotone(absences, absences + added, sessions);
    }
  }

  /** The same for the whole course and for the selected module. */
  lemma ProjectionNotLower(snap: Snapshot, selected: string, added: real)
    requires added >= 0.0
    ensures Respond(snap, selected, added).general.projectedPercent >= Respond(snap, selected, added).general.currentPercent
    ensures Respond(snap, selected, added).moduleFigures.projectedPercent >= Respond(snap, selected, added).moduleFigures.currentPercent
  {
    var g := GeneralStats(snap, added);
    var m := ModuleStatsOf(snap, selected, added);
    StatsNotLower(g.totalSessions, g.totalAbsences, added);
    StatsNotLower(m.totalSessions, m.totalAbsences, added);
    assert Respond(snap, selected, added).general == g;
    assert Respond(snap, selected, added).moduleFigures == m;
  }

  /** "__general__" selects no module: its figures are all 0, and there is
      no reto analysis. */
  lemma GeneralSelectsNoModule(snap: Snapshot, added: real)
    ensures Respond(snap, General, added).moduleFigures == Stats(0.0, 0.0, 0.0, 0.0)
    ensures Respond(snap, General, added).retoAnalysis.None?
  {
  }

  function RowCodes(rows: seq<RetoRow>): seq<string>
    decreases |rows|
  {
    if |rows| == 0 then [] else [rows[0].code] + RowCodes(rows[1..])
  }

  /** The reto rows are exactly the eligible modules, in key order: no reto
      and no module whose coefficient is 0. */
  lemma {:induction false} RetoRowsCodes(snap: Snapshot, table: AList<real>, codes: seq<string>, retoDirect: real, retoClasses: real, added: real)
    ensures RowCodes(RetoRows(snap, table, codes, retoDirect, retoClasses, added)) == Seqs.Filter(codes, EligibleFn(snap, table))
    decreases |codes|
  {
    if |codes| > 0 {
      var rest := RetoRows(snap, table, codes[1..], retoDirect, retoClasses, added);
      RetoRowsCodes(snap, table, codes[1..], retoDirect, retoClasses, added);
      if Eligible(snap, table, codes[0]) {
        var row := RowOf(snap, codes[0], CoefFor(table, codes[0]), retoDirect, retoClasses, added);
        assert ([row] + rest)[1..] == rest;
      }
    }
  }

  /** With non-negative coefficients, adding absences to the reto never
      lowers a module's projection. */
  lemma RowNotLower(snap: Snapshot, m: string, coef: real, retoDirect: real, retoClasses: real, added: real)
    requires coef >= 0.0 && added >= 0.0
    ensures RowOf(snap, m, coef, retoDirect, retoClasses, added).projected
      >= RowOf(snap, m, coef, retoDirect, retoClasses, added).current
  {
    var direct := DirectAbsences(snap, m);
    var sessions := ClassesOf(snap.aggregated, m) as real + retoClasses * coef;
    WeightedNotLower(retoDirect, added, coef);
    CalcPercentMonotone(direct + retoDirect * coef, direct + (retoDirect + added) * coef, sessions);
  }

  lemma WeightedNotLower(a: real, added: real, coef: real)
    requires coef >= 0.0 && added >= 0.0
    ensures a * coef <= (a + added) * coef
  {
    assert (a + added) * coef == a * coef + added * coef;
    assert added * coef >= 0.0;
  }

  /** No row's projection is below its current percentage. */
  predicate RowsNotBelow(rows: seq<RetoRow>) {
    forall i :: 0 <= i < |rows| ==> rows[i].projected >= rows[i].current
  }

  lemma RowsNotLower(snap: Snapshot, table: AList<real>, codes: seq<string>, retoDirect: real, retoClasses: real, added: real)
    requires added >= 0.0
    requires forall i :: 0 <= i < |table| ==> table[i].1 >= 0.0
    ensures RowsNotBelow(RetoRows(snap, table, codes, retoDirect, retoClasses, added))
  {
    var rows := RetoRows(snap, table, codes, retoDirect, retoClasses, added);
    forall i | 0 <= i < |rows| ensures rows[i].projected >= rows[i].current {
      var code := rows[i].code;
      CoefNonNegative(table, code);
      RowNotLower(snap, code, CoefFor(table, code), retoDirect, retoClasses, added);
    }
  }

  /** With non-negative coefficients and added absences, no figure of a
      reto analysis is projected below its current value. */
  lemma RetoAnalysisNotLower(snap: Snapshot, selected: string, added: real)
    requires added >= 0.0
    requires forall i :: 0 <= i < |TableOf(snap, selected)| ==> TableOf(snap, selected)[i].1 >= 0.0
    ensures RetoAnalysisOf(snap, selected, added).reto.projected >= RetoAnalysisOf(snap, selected, added).reto.current
    ensures RowsNotBelow(RetoAnalysisOf(snap, selected, added).modules)
  {
    var table := TableOf(snap, selected);
    var retoDirect := DirectAbsences(snap, selected);
    var retoClasses := ClassesOf(snap.aggregated, selected);
    var rows := RetoRows(snap, table, Keys(snap.aggregated.modules), retoDirect, retoClasses as real, added);
    CalcPercentMonotone(retoDirect, retoDirect + added, retoClasses as real);
    RowsNotLower(snap, table, Keys(snap.aggregated.modules), retoDirect, retoClasses as real, added);
    assert RetoAnalysisOf(snap, selected, added).modules == rows;
  }

  /** The reto analysis exists exactly when the selected module is a reto. */
  lemma RetoAnalysisPresence(snap: Snapshot, selected: string, added: real)
    ensures Respond(snap, selected, added).retoAnalysis.Some? <==> SelectedIsReto(snap, selected)
    ensures SelectedIsReto(snap, selected) ==> Respond(snap, selected, added).retoAnalysis == Some(RetoAnalysisOf(snap, selected, added))
  {
  }

  lemma CoefNonNegative(table: AList<real>, m: string)
    requires forall i :: 0 <= i < |table| ==> table[i].1 >= 0.0
    ensures CoefFor(table, m) >= 0.0
  {
    if HasKey(table, m) {
      var i :| 0 <= i < |table| && table[i] == (m, Get(table, m).value);
    }
  }
}
