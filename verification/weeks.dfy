/** The week choice of `lib/utils/weeks.ts`: the week that holds today, by
    the string order of ISO dates, and the default week shown. `todayISO`
    is a parameter, the value `getTodayLocalISO` would give. */
module Weeks {
  import opened Wrappers
  import opened SnapshotModel
  import Dates

  /** The week runs from its start to its end, both included. */
  predicate HoldsDay(w: Week, todayISO: string) {
    Dates.IsDateWithinRange(todayISO, w.weekStartISO, w.weekEndISO)
  }

  /** `weeks.findIndex(...)`, starting the count at `from`. */
  function FirstHolding(weeks: seq<Week>, todayISO: string, from: nat): (r: Option<nat>)
    requires from <= |weeks|
    ensures r.Some? ==> from <= r.value < |weeks| && HoldsDay(weeks[r.value], todayISO) &&
                        forall j :: from <= j < r.value ==> !HoldsDay(weeks[j], todayISO)
    ensures r.None? ==> forall j :: from <= j < |weeks| ==> !HoldsDay(weeks[j], todayISO)
    decreases |weeks| - from
  {
    if from == |weeks| then None
    else if HoldsDay(weeks[from], todayISO) then Some(from)
    else FirstHolding(weeks, todayISO, from + 1)
  }

  function WeeksOf(snapshot: Option<Snapshot>): seq<Week> {
    if snapshot.None? then [] else snapshot.value.weeks
  }

  /** `findCurrentWeekIndex`: none without weeks; otherwise the first week
      that holds today, or none when no week does. */
  function FindCurrentWeekIndex(snapshot: Option<Snapshot>, todayISO: string): (r: Option<nat>)
    ensures |WeeksOf(snapshot)| == 0 ==> r.None?
    ensures r.Some? ==>
      var weeks := WeeksOf(snapshot);
      r.value < |weeks| && HoldsDay(weeks[r.value], todayISO) &&
      forall j :: 0 <= j < r.value ==> !HoldsDay(weeks[j], todayISO)
    ensures r.None? ==> forall j :: 0 <= j < |WeeksOf(snapshot)| ==> !HoldsDay(WeeksOf(snapshot)[j], todayISO)
  {
    if |WeeksOf(snapshot)| == 0 then None else FirstHolding(WeeksOf(snapshot), todayISO, 0)
  }

  /** `getDefaultWeekIndex`: the current week when there is one, otherwise
      the last week; none only when there are no weeks. */
  function GetDefaultWeekIndex(snapshot: Option<Snapshot>, todayISO: string): (r: Option<nat>)
    ensures r.Some? <==> |WeeksOf(snapshot)| > 0
    ensures r.Some? ==> r.value < |WeeksOf(snapshot)|
    ensures FindCurrentWeekIndex(snapshot, todayISO).Some? ==> r == FindCurrentWeekIndex(snapshot, todayISO)
    ensures |WeeksOf(snapshot)| > 0 && FindCurrentWeekIndex(snapshot, todayISO).None? ==>
      r == Some(|WeeksOf(snapshot)| - 1)
  {
    if |WeeksOf(snapshot)| == 0 then None
    else
      match FindCurrentWeekIndex(snapshot, todayISO)
      case Some(i) => Some(i)
      case None => Some(|WeeksOf(snapshot)| - 1)
  }

  /** The default week holds today whenever some week does. */
  lemma DefaultHoldsTodayWhenAnyDoes(snapshot: Option<Snapshot>, todayISO: string, k: nat)
    requires k < |WeeksOf(snapshot)| && HoldsDay(WeeksOf(snapshot)[k], todayISO)
    ensures GetDefaultWeekIndex(snapshot, todayISO).Some?
    ensures var i := GetDefaultWeekIndex(snapshot, todayISO).value;
      i <= k && HoldsDay(WeeksOf(snapshot)[i], todayISO)
  {
  }
}
