/** The scraped snapshot of one student: weeks of timetable cells, the
    legends, the portal's own percentages and the per-module aggregates,
    plus the fields the reto distribution adds. Field names follow the
    JSON the application stores. */
module SnapshotModel {
  import opened Wrappers
  import opened Assoc

  /** One timetable cell. `title` and `cssClass` are `None` for both `null`
      and a missing field, which the code never tells apart. */
  datatype Session = Session(
    hour: real,
    weekday: int,
    dateISO: string,
    title: Option<string>,
    cssClass: Option<string>)

  datatype Week = Week(
    weekStartISO: string,
    weekEndISO: string,
    daysISO: seq<string>,
    sessions: seq<Session>)

  /** `aggregated.modules[code]` */
  datatype ModuleStats = ModuleStats(classesGiven: nat, absenceCounts: AList<nat>)

  datatype Aggregated = Aggregated(modules: AList<ModuleStats>, absenceTotals: AList<nat>)

  datatype Legend = Legend(modules: AList<string>, absenceTypes: AList<string>)

  datatype Identity = Identity(fullName: string, dni: string, group: Option<string>)

  datatype Percentages = Percentages(name: string, totalPercent: real, byModule: AList<real>)

  /** An entry of `snapshot.retos`; `labelText` is its `label` field (a
      reserved word in Dafny). */
  datatype RetoInfo = RetoInfo(id: string, labelText: string, group: Option<string>)

  /** An entry of `moduleCalculations`. Every field the producer writes and
      every field a consumer reads is listed; an absent field is `None`. */
  datatype ModuleCalc = ModuleCalc(
    faltasDirectas: Option<real>,
    faltasDerivadas: Option<real>,
    sesionesDirectas: Option<real>,
    sesionesDerivadas: Option<real>,
    totalFaltas: Option<real>,
    totalSesiones: Option<real>,
    asistenciasDirectas: Option<real>,
    asistenciasDerivadas: Option<real>,
    totalAsistencias: Option<real>)

  datatype Snapshot = Snapshot(
    identity: Identity,
    legend: Legend,
    percentages: Percentages,
    weeks: seq<Week>,
    aggregated: Aggregated,
    retos: Option<seq<RetoInfo>>,
    coeficientes: Option<AList<AList<real>>>,
    moduleCalculations: Option<AList<ModuleCalc>>)

  /** `aggregated.modules[code].absenceCounts`, if the module exists. */
  function CountsOf(agg: Aggregated, code: string): Option<AList<nat>> {
    match Get(agg.modules, code)
    case Some(m) => Some(m.absenceCounts)
    case None => None
  }

  /** `aggregated.modules[code]?.classesGiven || 0` */
  function ClassesOf(agg: Aggregated, code: string): nat {
    match Get(agg.modules, code)
    case Some(m) => m.classesGiven
    case None => 0
  }

  /** `legend.modules[code] || code`: the legend's name of a module, or its
      code when the legend has none or an empty one. */
  function ModuleLabel(legend: Legend, code: string): string {
    match Get(legend.modules, code)
    case Some(l) => if l != "" then l else code
    case None => code
  }
}
