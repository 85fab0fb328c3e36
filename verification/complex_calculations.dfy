/** The client-side summaries of `lib/hooks/useComplexCalculations.ts`: the
    per-module table built from `moduleCalculations`, the per-reto table
    built from the aggregates, and the headline figures of a weekly series. */
module ComplexCalculations {
  import opened Wrappers
  import opened Assoc
  import opened Num
  import opened Calculations
  import opened SnapshotModel
  import opened Seqs
  import CalculateUtils

  // ---- useModuleCalculations ----

  /** A row of the module table. */
  datatype ModuleRow = ModuleRow(
    code: string,
    name: string,
    faltasDirectas: real,
    faltasDerivadas: real,
    sesionesDirectas: real,
    sesionesDerivadas: real,
    totalFaltas: real,
    totalSesiones: real,
    percent: real)

  function ModulePercent(row: ModuleRow): real { row.percent }

  /** `x ?? d`: the field when it is present, even when it is 0. */
  function OrElse(x: Option<real>, d: real): real { if x.Some? then x.value else d }

  /** One row: the four parts default to 0; the totals are the summary's
      own totals when present, and the sums of the parts only when absent;
      the percentage is that of the totals. */
  function ModuleRowOf(legend: Legend, code: string, cal: ModuleCalc): (r: ModuleRow)
    ensures r.code == code && r.name == ModuleLabel(legend, code)
    ensures cal.totalFaltas.Some? ==> r.totalFaltas == cal.totalFaltas.value
    ensures cal.totalFaltas.None? ==> r.totalFaltas == r.faltasDirectas + r.faltasDerivadas
    ensures cal.totalSesiones.Some? ==> r.totalSesiones == cal.totalSesiones.value
    ensures cal.totalSesiones.None? ==> r.totalSesiones == r.sesionesDirectas + r.sesionesDerivadas
    ensures r.percent == CalcPercent(r.totalFaltas, r.totalSesiones)
  {
    var fd := CalculateUtils.Or0(cal.faltasDirectas);
    var fe := CalculateUtils.Or0(cal.faltasDerivadas);
    var sd := CalculateUtils.Or0(cal.sesionesDirectas);
    var se := CalculateUtils.Or0(cal.sesionesDerivadas);
    var tf := OrElse(cal.totalFaltas, fd + fe);
    var ts := OrElse(cal.totalSesiones, sd + se);
    ModuleRow(code, ModuleLabel(legend, code), fd, fe, sd, se, tf, ts, CalcPercent(tf, ts))
  }

  /** The rows in the key order of `moduleCalculations`, before sorting. */
  function ModuleRowsInOrder(legend: Legend, calcs: AList<ModuleCalc>): (r: seq<ModuleRow>)
    ensures |r| == |calcs|
    ensures forall i :: 0 <= i < |calcs| ==> r[i] == ModuleRowOf(legend, calcs[i].0, calcs[i].1)
  {
    if |calcs| == 0 then [] else [ModuleRowOf(legend, calcs[0].0, calcs[0].1)] + ModuleRowsInOrder(legend, calcs[1..])
  }

  /** `useModuleCalculations`: no rows without a snapshot or without
      summaries; otherwise one row per summary, highest percentage first. */
  function UseModuleCalculations(snapshot: Option<Snapshot>): (r: seq<ModuleRow>)
    ensures snapshot.None? || snapshot.value.moduleCalculations.None? ==> r == []
    ensures snapshot.Some? && snapshot.value.moduleCalculations.Some? ==>
      SortedDesc(r, ModulePercent) &&
      multiset(r) == multiset(ModuleRowsInOrder(snapshot.value.legend, snapshot.value.moduleCalculations.value))
  {
    if snapshot.None? || snapshot.value.moduleCalculations.None? then []
    else SortDesc(ModuleRowsInOrder(snapshot.value.legend, snapshot.value.moduleCalculations.value), ModulePercent)
  }

  /** Before sorting, a row is listed exactly when it is the row of one of
      the summaries. */
  lemma InModuleRowsInOrder(legend: Legend, calcs: AList<ModuleCalc>, row: ModuleRow)
    requires UniqueKeys(calcs)
    ensures row in ModuleRowsInOrder(legend, calcs) <==>
      (HasKey(calcs, row.code) && row == ModuleRowOf(legend, row.code, Get(calcs, row.code).value))
  {
    var u := ModuleRowsInOrder(legend, calcs);
    if row in u {
      var i :| 0 <= i < |u| && u[i] == row;
      GetEntry(calcs, i);
      assert Keys(calcs)[i] == row.code;
    }
    if HasKey(calcs, row.code) && row == ModuleRowOf(legend, row.code, Get(calcs, row.code).value) {
      var i :| 0 <= i < |calcs| && Keys(calcs)[i] == row.code;
      GetEntry(calcs, i);
      assert u[i] == row;
    }
  }

  /** A row is in the table exactly when it is the row of one of the
      summaries, and each summary's row is there. */
  lemma ModuleRowsCover(snap: Snapshot, row: ModuleRow)
    requires snap.moduleCalculations.Some? && UniqueKeys(snap.moduleCalculations.value)
    ensures row in UseModuleCalculations(Some(snap)) <==>
      (HasKey(snap.moduleCalculations.value, row.code) &&
       row == ModuleRowOf(snap.legend, row.code, Get(snap.moduleCalculations.value, row.code).value))
  {
    var r := UseModuleCalculations(Some(snap));
    var u := ModuleRowsInOrder(snap.legend, snap.moduleCalculations.value);
    assert row in r <==> row in u by {
      assert row in multiset(r) <==> row in multiset(u);
    }
    InModuleRowsInOrder(snap.legend, snap.moduleCalculations.value, row);
  }

  /** The first row has the highest percentage of the table. */
  lemma FirstModuleRowIsHighest(snapshot: Option<Snapshot>, i: int)
    requires 0 <= i < |UseModuleCalculations(snapshot)|
    ensures UseModuleCalculations(snapshot)[0].percent >= UseModuleCalculations(snapshot)[i].percent
  {
    SortedDescPairs(UseModuleCalculations(snapshot), ModulePercent, 0, i);
  }

  /** The table's totals agree with the base figures the projections start
      from, wherever both read the same field: `totalFaltas` when the
      summary has it, the session parts when it has no `totalSesiones`. */
  lemma ModuleRowAgreesWithBase(snap: Snapshot, code: string, sumar: CalculateUtils.Sumar)
    requires CalculateUtils.CalcFor(snap, code).Some?
    ensures var cal := CalculateUtils.CalcFor(snap, code).value;
            var row := ModuleRowOf(snap.legend, code, cal);
            var base := CalculateUtils.GetModuleBaseStats(snap, code, sumar);
            (cal.totalFaltas.Some? ==> row.totalFaltas == base.absences) &&
            (cal.totalSesiones.None? ==> row.totalSesiones == base.classes)
  {
  }

  // ---- useRetoCalculations ----

  /** A row of the reto table; `name` is the hook's `label` field. */
  datatype RetoRow = RetoRow(id: string, name: string, totalFaltas: real, totalSesiones: nat, percent: real)

  function RetoPercent(row: RetoRow): real { row.percent }

  /** `moduleData?.absenceCounts || {}`: the hook hands `sumarFaltas` an
      empty record, never `undefined`, for a reto without aggregates. */
  function HookCounts(agg: Aggregated, id: string): (r: Option<AList<nat>>)
    ensures r.Some?
    ensures HasKey(agg.modules, id) ==> r == CountsOf(agg, id)
  {
    match CountsOf(agg, id)
    case Some(c) => Some(c)
    case None => Some([])
  }

  /** One reto row: absences from `sumarFaltas`, sessions from the
      aggregate's `classesGiven` (0 when there is none). */
  function HookRetoRowOf(agg: Aggregated, reto: RetoInfo, sumar: CalculateUtils.Sumar): (r: RetoRow)
    ensures r.id == reto.id && r.name == reto.labelText
    ensures r.totalFaltas == sumar(HookCounts(agg, reto.id))
    ensures r.totalSesiones == ClassesOf(agg, reto.id)
    ensures r.percent == CalcPercent(r.totalFaltas, r.totalSesiones as real)
  {
    var tf := sumar(HookCounts(agg, reto.id));
    var ts := ClassesOf(agg, reto.id);
    RetoRow(reto.id, reto.labelText, tf, ts, CalcPercent(tf, ts as real))
  }

  function HookRetoRowsInOrder(agg: Aggregated, retos: seq<RetoInfo>, sumar: CalculateUtils.Sumar): (r: seq<RetoRow>)
    ensures |r| == |retos|
    ensures forall i :: 0 <= i < |retos| ==> r[i] == HookRetoRowOf(agg, retos[i], sumar)
  {
    if |retos| == 0 then [] else [HookRetoRowOf(agg, retos[0], sumar)] + HookRetoRowsInOrder(agg, retos[1..], sumar)
  }

  /** `useRetoCalculations`: no rows without a snapshot or its reto list;
      otherwise one row per reto, highest percentage first. */
  function UseRetoCalculations(snapshot: Option<Snapshot>, sumar: CalculateUtils.Sumar): (r: seq<RetoRow>)
    ensures snapshot.None? || snapshot.value.retos.None? ==> r == []
    ensures snapshot.Some? && snapshot.value.retos.Some? ==>
      |r| == |snapshot.value.retos.value| && SortedDesc(r, RetoPercent) &&
      multiset(r) == multiset(HookRetoRowsInOrder(snapshot.value.aggregated, snapshot.value.retos.value, sumar))
  {
    if snapshot.None? || snapshot.value.retos.None? then []
    else SortDesc(HookRetoRowsInOrder(snapshot.value.aggregated, snapshot.value.retos.value, sumar), RetoPercent)
  }

  /** Every reto of the list has its row in the table, and every row of the
      table is the row of a listed reto. */
  lemma RetoRowsCover(snap: Snapshot, sumar: CalculateUtils.Sumar, row: RetoRow)
    requires snap.retos.Some?
    ensures row in UseRetoCalculations(Some(snap), sumar) <==>
      exists i :: 0 <= i < |snap.retos.value| && row == HookRetoRowOf(snap.aggregated, snap.retos.value[i], sumar)
  {
    var u := HookRetoRowsInOrder(snap.aggregated, snap.retos.value, sumar);
    var r := UseRetoCalculations(Some(snap), sumar);
    assert row in r <==> row in u by {
      assert row in multiset(r) <==> row in multiset(u);
    }
    if row in u {
      var i :| 0 <= i < |u| && u[i] == row;
      assert row == HookRetoRowOf(snap.aggregated, snap.retos.value[i], sumar);
    }
  }

  // ---- useStatisticsMetrics ----

  /** The two fields of a weekly-series point the metrics read. */
  datatype WeekPoint = WeekPoint(weekLabel: string, total: real)

  /** `avgFaltasSemana` is the text `toFixed(2)` prints in the source; here
      it is the number that text shows, the rounded average to two
      decimals. */
  datatype Metrics = Metrics(
    totalFaltas: int,
    avgFaltasSemana: real,
    trend: real,
    maxWeek: real,
    maxWeekLabel: string,
    weeksCount: nat)

  /** The sum of the weekly totals. */
  function SeriesTotal(ws: seq<WeekPoint>): real {
    if |ws| == 0 then 0.0 else SeriesTotal(ws[..|ws| - 1]) + ws[|ws| - 1].total
  }

  /** The position `reduce` without a seed settles on: it starts at the
      first week and moves only to a strictly larger total. */
  function MaxWeekIndex(ws: seq<WeekPoint>): (i: nat)
    requires |ws| > 0
    ensures i < |ws|
  {
    if |ws| == 1 then 0
    else
      var m := MaxWeekIndex(ws[..|ws| - 1]);
      if ws[|ws| - 1].total > ws[m].total then |ws| - 1 else m
  }

  /** The week the reduce picks is the first with the largest total. */
  lemma {:induction false} MaxWeekIndexMeaning(ws: seq<WeekPoint>)
    requires |ws| > 0
    ensures forall j :: 0 <= j < |ws| ==> ws[j].total <= ws[MaxWeekIndex(ws)].total
    ensures forall j :: 0 <= j < MaxWeekIndex(ws) ==> ws[j].total < ws[MaxWeekIndex(ws)].total
  {
    if |ws| > 1 {
      var p := ws[..|ws| - 1];
      MaxWeekIndexMeaning(p);
      assert forall j :: 0 <= j < |p| ==> p[j] == ws[j];
    }
  }

  /** No week's total exceeds the one the reduce picks, so `n` times it
      bounds the sum. */
  lemma {:induction false} SeriesTotalAtMost(ws: seq<WeekPoint>, m: real)
    requires forall j :: 0 <= j < |ws| ==> ws[j].total <= m
    ensures SeriesTotal(ws) <= |ws| as real * m
  {
    if |ws| > 0 {
      var p := ws[..|ws| - 1];
      assert forall j :: 0 <= j < |p| ==> p[j] == ws[j];
      SeriesTotalAtMost(p, m);
    }
  }

  /** `useStatisticsMetrics`: nothing for a missing or empty series;
      otherwise the rounded total, the average per week to two decimals
      (the value of the source's `toFixed(2)` text),
      the change over the last week (0 for a single week), the total and
      label of the week the reduce picks, and the number of weeks. */
  function UseStatisticsMetrics(series: Option<seq<WeekPoint>>): (r: Option<Metrics>)
    ensures r.None? <==> series.None? || |series.value| == 0
    ensures r.Some? ==>
      var ws := series.value;
      var n := |ws|;
      r.value.weeksCount == n &&
      r.value.totalFaltas == MathRound(SeriesTotal(ws)) &&
      r.value.avgFaltasSemana == Round2(SeriesTotal(ws) / n as real) &&
      r.value.trend == (if n > 1 then ws[n - 1].total - ws[n - 2].total else 0.0) &&
      (exists i :: 0 <= i < n && ws[i].total == r.value.maxWeek && ws[i].weekLabel == r.value.maxWeekLabel)
  {
    var ws := if series.Some? then series.value else [];
    if |ws| == 0 then None
    else
      var total := SeriesTotal(ws);
      var avg := total / |ws| as real;
      var trend := if |ws| > 1 then ws[|ws| - 1].total - ws[|ws| - 2].total else 0.0;
      var m := ws[MaxWeekIndex(ws)];
      Some(Metrics(MathRound(total), Round2(avg), trend, m.total, m.weekLabel, |ws|))
  }

  /** A bound on every week bounds the average. */
  lemma AverageAtMost(ws: seq<WeekPoint>, m: real)
    requires |ws| > 0
    requires forall j :: 0 <= j < |ws| ==> ws[j].total <= m
    ensures SeriesTotal(ws) / |ws| as real <= m
  {
    SeriesTotalAtMost(ws, m);
    var n, t := |ws| as real, SeriesTotal(ws);
    assert t <= n * m;
    assert t / n <= m;
  }

  /** The reported maximum is the largest weekly total, reached first at
      the reported label's week, and it is never below the average. */
  lemma MetricsMaxWeek(ws: seq<WeekPoint>)
    requires |ws| > 0
    ensures var r := UseStatisticsMetrics(Some(ws)).value;
            (forall j :: 0 <= j < |ws| ==> ws[j].total <= r.maxWeek) &&
            (exists i :: 0 <= i < |ws| && ws[i].total == r.maxWeek && ws[i].weekLabel == r.maxWeekLabel &&
                         forall j :: 0 <= j < i ==> ws[j].total < r.maxWeek) &&
            SeriesTotal(ws) / |ws| as real <= r.maxWeek
  {
    var i := MaxWeekIndex(ws);
    var r := UseStatisticsMetrics(Some(ws)).value;
    assert r.maxWeek == ws[i].total && r.maxWeekLabel == ws[i].weekLabel;
    MaxWeekIndexMeaning(ws);
    AverageAtMost(ws, ws[i].total);
  }
}
