/** `GET /api/faltas/selectedWeek` (`app/api/faltas/selectedWeek/route.ts`):
    one week of the processed snapshot, its sessions filtered by module and
    absence code, and the two legends. */
module SelectedWeekRoute {
  import opened Wrappers
  import opened Num
  import opened JsString
  import opened Assoc
  import opened SnapshotModel
  import opened Seqs
  import SnapshotService

  /** `selectedWeekIdx ? parseInt(selectedWeekIdx) : null`: a missing or
      empty parameter is `null`, and so is text `parseInt` reads as `NaN`,
      since every comparison with `NaN` fails and `weeks[NaN]` is
      undefined. */
  function WeekIndex(param: Option<string>): (r: Option<int>)
    ensures param.None? || param.value == "" ==> r.None?
  {
    if param.None? || param.value == "" then None else ParseInt(param.value)
  }

  /** `buildSelectedWeek` of the route: `null` for a missing or
      out-of-range index, with no default week; otherwise the week with the
      sessions that pass both filters. */
  function RouteSelectedWeek(weeks: seq<Week>, idx: Option<int>, moduleFilter: string, absenceFilter: string): (r: Option<Week>)
    ensures r.Some? <==> idx.Some? && 0 <= idx.value < |weeks|
    ensures r.Some? ==>
      var w := weeks[idx.value];
      && r.value.weekStartISO == w.weekStartISO && r.value.weekEndISO == w.weekEndISO && r.value.daysISO == w.daysISO
      && IsSubsequence(r.value.sessions, w.sessions)
      && forall s :: s in r.value.sessions <==> s in w.sessions && SnapshotService.Keeps(s, moduleFilter, absenceFilter)
  {
    if idx.None? || idx.value < 0 || idx.value >= |weeks| then None
    else
      var w := weeks[idx.value];
      FilterIsSubsequence(w.sessions, SnapshotService.KeepsFn(moduleFilter, absenceFilter));
      Some(w.(sessions := Filter(w.sessions, SnapshotService.KeepsFn(moduleFilter, absenceFilter))))
  }

  datatype SelectedWeekResponse = SelectedWeekResponse(week: Option<Week>, absenceLegend: AList<string>, moduleLegend: AList<string>)

  datatype Reply = BadRequest | ServerError | Ok(body: SelectedWeekResponse)

  /** `searchParams.get(name) || "all"` */
  function FilterParam(param: Option<string>): string {
    if param.Some? && param.value != "" then param.value else "all"
  }

  /** `GET`: 400 without a DNI; `load` is `loadProcessedSnapshot`, `None`
      when it throws (500). */
  function HandleGet(dni: Option<string>, weekParam: Option<string>, moduleParam: Option<string>, absenceParam: Option<string>,
                     load: string -> Option<Snapshot>): (r: Reply)
    ensures dni.None? || dni.value == "" ==> r == BadRequest
    ensures dni.Some? && dni.value != "" && load(dni.value).None? ==> r == ServerError
    ensures dni.Some? && dni.value != "" && load(dni.value).Some? ==>
      var snap := load(dni.value).value;
      && r.Ok?
      && r.body.absenceLegend == snap.legend.absenceTypes
      && r.body.moduleLegend == snap.legend.modules
      && r.body.week == RouteSelectedWeek(snap.weeks, WeekIndex(weekParam), FilterParam(moduleParam), FilterParam(absenceParam))
  {
    if dni.None? || dni.value == "" then BadRequest
    else match load(dni.value)
      case None => ServerError
      case Some(snap) =>
        Ok(SelectedWeekResponse(
          RouteSelectedWeek(snap.weeks, WeekIndex(weekParam), FilterParam(moduleParam), FilterParam(absenceParam)),
          snap.legend.absenceTypes, snap.legend.modules))
  }

  /** For an index that is given, the route and `buildSelectedWeek` of the
      snapshot service agree. */
  lemma AgreesWithServiceOnIndex(weeks: seq<Week>, i: int, moduleFilter: string, absenceFilter: string)
    ensures RouteSelectedWeek(weeks, Some(i), moduleFilter, absenceFilter)
      == SnapshotService.BuildSelectedWeek(weeks, Some(i), moduleFilter, absenceFilter)
  {
  }

  /** Without an index they differ: the route has no week, while the
      service defaults to the latest one. */
  lemma NoDefaultWeek(weeks: seq<Week>, moduleFilter: string, absenceFilter: string)
    requires |weeks| > 0
    ensures RouteSelectedWeek(weeks, None, moduleFilter, absenceFilter).None?
    ensures SnapshotService.BuildSelectedWeek(weeks, None, moduleFilter, absenceFilter).Some?
  {
  }

  /** The index text of a week position selects that week. */
  lemma IndexTextSelects(weeks: seq<Week>, n: nat, moduleFilter: string, absenceFilter: string)
    requires n < |weeks|
    ensures RouteSelectedWeek(weeks, WeekIndex(Some(NatToString(n))), moduleFilter, absenceFilter).Some?
    ensures RouteSelectedWeek(weeks, WeekIndex(Some(NatToString(n))), moduleFilter, absenceFilter).value.weekStartISO
      == weeks[n].weekStartISO
  {
    ParseIntOfNat(n);
  }

  /** A negative index selects nothing. */
  lemma NegativeIndexNoWeek(weeks: seq<Week>, n: nat, moduleFilter: string, absenceFilter: string)
    requires n > 0
    ensures RouteSelectedWeek(weeks, WeekIndex(Some("-" + NatToString(n))), moduleFilter, absenceFilter).None?
  {
    ParseIntOfNegative(n);
  }
}
