/** The inline figures of `app/dashboard/page.tsx`. Each memo repeats the
    body of the matching function of `lib/services/snapshotService.ts`
    behind a guard for the snapshot that has not loaded yet, so each is
    modelled as that guard around the shared function. */
module DashboardPage {
  import opened Wrappers
  import opened SnapshotModel
  import opened JsString
  import opened Assoc
  import opened Aggregation
  import opened Seqs
  import SnapshotService

  /** The module table: empty before a snapshot loads, otherwise the rows
      of `buildModulesTable` for the same filters. Every row belongs to a
      module that passes the module filter; with distinct module keys the
      filter "all" gives one row per module, in order, and any other filter
      at most the row of that module. */
  function ModulesTable(snapshot: Option<Snapshot>, moduleFilter: string, absenceFilter: string)
    : (r: seq<SnapshotService.ModuleRow>)
    ensures snapshot.None? ==> r == []
    ensures snapshot.Some? ==> forall i :: 0 <= i < |r| ==>
      SnapshotService.PassesFilter(moduleFilter, r[i].key) && HasKey(snapshot.value.aggregated.modules, r[i].key)
    ensures snapshot.Some? && UniqueKeys(snapshot.value.aggregated.modules) && moduleFilter == "all" ==>
      var ms := snapshot.value.aggregated.modules;
      |r| == |ms| && forall i :: 0 <= i < |ms| ==> r[i].key == ms[i].0 && r[i].classes == ms[i].1.classesGiven
    ensures snapshot.Some? && UniqueKeys(snapshot.value.aggregated.modules) && moduleFilter != "all" ==>
      |r| <= 1 && (|r| == 1 <==> HasKey(snapshot.value.aggregated.modules, moduleFilter))
      && (|r| == 1 ==> r[0].key == moduleFilter)
  {
    if snapshot.None? then []
    else
      if UniqueKeys(snapshot.value.aggregated.modules) then
        SnapshotService.ModulesTableRows(snapshot.value, moduleFilter, absenceFilter);
        SnapshotService.BuildModulesTable(snapshot.value, moduleFilter, absenceFilter)
      else
        SnapshotService.BuildModulesTable(snapshot.value, moduleFilter, absenceFilter)
  }

  /** The headline: empty before a snapshot loads, otherwise it opens with
      the number of weeks followed by " semanas · ", and that number, read
      back up to the first space, is the number of weeks. */
  function TopLine(snapshot: Option<Snapshot>): (r: string)
    ensures snapshot.None? ==> r == ""
    ensures snapshot.Some? ==>
      var n := |NatToString(|snapshot.value.weeks|)|;
      && StartsWith(r, NatToString(|snapshot.value.weeks|) + " semanas \U{00B7} ")
      && IndexOf(r, " ") == Some(n)
      && AllDigits(r[..n]) && DigitsValue(r[..n]) == |snapshot.value.weeks|
  {
    if snapshot.None? then ""
    else
      SnapshotService.TopLineCount(snapshot.value.weeks);
      SnapshotService.BuildTopLine(snapshot.value.weeks)
  }

  /** The weekly chart: `buildWeeklySeries` for the same filters. */
  function WeeklySeries(snapshot: Option<Snapshot>, moduleFilter: string, absenceFilter: string)
    : (r: seq<SnapshotService.SeriesPoint>)
    ensures snapshot.None? ==> r == []
    ensures snapshot.Some? ==> r == SnapshotService.BuildWeeklySeries(snapshot.value.weeks, moduleFilter, absenceFilter)
    ensures snapshot.Some? ==> |r| == |snapshot.value.weeks|
  {
    if snapshot.None? then [] else SnapshotService.BuildWeeklySeries(snapshot.value.weeks, moduleFilter, absenceFilter)
  }

  /** The monthly chart: before a snapshot loads nothing; once loaded the
      months are distinct and ascending, each carries its positive number of
      counted sessions, and the totals add up to all counted sessions. */
  function MonthlySeries(snapshot: Option<Snapshot>, moduleFilter: string, absenceFilter: string)
    : (r: seq<SnapshotService.MonthTotal>)
    ensures snapshot.None? ==> r == []
    ensures snapshot.Some? ==> forall i, j :: 0 <= i < j < |r| ==> StringLess(r[i].month, r[j].month)
    ensures snapshot.Some? ==> forall i :: 0 <= i < |r| ==>
      r[i].total > 0
      && r[i].total == SnapshotService.CountMonth(AllSessions(snapshot.value.weeks), moduleFilter, absenceFilter, r[i].month)
    ensures snapshot.Some? ==>
      SnapshotService.SumTotals(r) == SnapshotService.CountCounted(AllSessions(snapshot.value.weeks), moduleFilter, absenceFilter)
  {
    if snapshot.None? then []
    else
      var weeks := snapshot.value.weeks;
      var r := SnapshotService.BuildMonthlySeries(weeks, moduleFilter, absenceFilter);
      SnapshotService.MonthlySum(weeks, moduleFilter, absenceFilter);
      MonthlyTotalsAll(weeks, moduleFilter, absenceFilter);
      r
  }

  lemma MonthlyTotalsAll(weeks: seq<Week>, moduleFilter: string, absenceFilter: string)
    ensures var r := SnapshotService.BuildMonthlySeries(weeks, moduleFilter, absenceFilter);
      forall i :: 0 <= i < |r| ==>
        r[i].total > 0 && r[i].total == SnapshotService.CountMonth(AllSessions(weeks), moduleFilter, absenceFilter, r[i].month)
  {
    var r := SnapshotService.BuildMonthlySeries(weeks, moduleFilter, absenceFilter);
    forall i | 0 <= i < |r|
      ensures r[i].total > 0 && r[i].total == SnapshotService.CountMonth(AllSessions(weeks), moduleFilter, absenceFilter, r[i].month)
    {
      SnapshotService.MonthlyTotals(weeks, moduleFilter, absenceFilter, i);
    }
  }

  /** The KPI cards: none before a snapshot loads, otherwise `buildKpis` at
      the same instant `nowMs`, so every total is split into the last
      thirty days and the rest. */
  function Kpis(snapshot: Option<Snapshot>, nowMs: int, parseMs: string -> Option<int>)
    : (r: Option<SnapshotService.Kpis>)
    ensures r.Some? <==> snapshot.Some?
    ensures snapshot.Some? ==> r.value == SnapshotService.BuildKpis(snapshot.value.weeks, nowMs, parseMs)
    ensures r.Some? ==> r.value.totalAbsences == r.value.last30 + r.value.prev30
  {
    if snapshot.None? then None else Some(SnapshotService.BuildKpis(snapshot.value.weeks, nowMs, parseMs))
  }

  /** The drill-down week: none before a snapshot loads; once loaded, the
      week at the chosen index, or at the last index when none is chosen,
      when that index exists, with its dates and just the sessions that pass
      both filters, in their order. */
  function SelectedWeek(snapshot: Option<Snapshot>, selected: Option<int>, moduleFilter: string, absenceFilter: string)
    : (r: Option<Week>)
    ensures snapshot.None? ==> r.None?
    ensures snapshot.Some? ==>
      var weeks := snapshot.value.weeks;
      var idx := if selected.Some? then selected.value else |weeks| - 1;
      (r.Some? <==> 0 <= idx < |weeks|)
      && (r.Some? ==>
            && r.value.weekStartISO == weeks[idx].weekStartISO
            && r.value.weekEndISO == weeks[idx].weekEndISO
            && r.value.daysISO == weeks[idx].daysISO
            && IsSubsequence(r.value.sessions, weeks[idx].sessions)
            && (forall s :: s in r.value.sessions <==>
                  s in weeks[idx].sessions && SnapshotService.Keeps(s, moduleFilter, absenceFilter)))
  {
    if snapshot.None? then None
    else
      var r := SnapshotService.BuildSelectedWeek(snapshot.value.weeks, selected, moduleFilter, absenceFilter);
      if r.Some? then
        SnapshotService.SelectedWeekSessions(snapshot.value.weeks, selected, moduleFilter, absenceFilter);
        r
      else
        r
  }
}
