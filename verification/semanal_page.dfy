/** The "Semanal" page of `app/semanal/page.tsx`: the week it opens on, the
    previous / next buttons, the week it draws and the colours of a cell.
    The page's clock is the parameter `todayUtcMs`, the instant of today's
    UTC midnight, and `new Date(text)` is the parameter `parseMs`, `None`
    for an invalid date (every comparison with one is false). */
module SemanalPage {
  import opened Wrappers
  import opened SnapshotModel
  import opened JsString
  import SnapshotService
  import Calculations
  import Weeks
  import Ui

  // ---- the week it opens on ----

  /** `todayUTC >= start && todayUTC <= end` for the week's two dates read
      as UTC midnights. */
  predicate HoldsInstant(w: Week, todayUtcMs: int, parseMs: string -> Option<int>) {
    var start := parseMs(w.weekStartISO + "T00:00:00Z");
    var end := parseMs(w.weekEndISO + "T00:00:00Z");
    start.Some? && end.Some? && start.value <= todayUtcMs <= end.value
  }

  function FirstHoldingInstant(weeks: seq<Week>, todayUtcMs: int, parseMs: string -> Option<int>, from: nat)
    : (r: Option<nat>)
    requires from <= |weeks|
    ensures r.Some? ==> from <= r.value < |weeks| && HoldsInstant(weeks[r.value], todayUtcMs, parseMs) &&
                        forall j :: from <= j < r.value ==> !HoldsInstant(weeks[j], todayUtcMs, parseMs)
    ensures r.None? ==> forall j :: from <= j < |weeks| ==> !HoldsInstant(weeks[j], todayUtcMs, parseMs)
    decreases |weeks| - from
  {
    if from == |weeks| then None
    else if HoldsInstant(weeks[from], todayUtcMs, parseMs) then Some(from)
    else FirstHoldingInstant(weeks, todayUtcMs, parseMs, from + 1)
  }

  /** The selection after the loading effect has run: a choice already made,
      or a snapshot not yet loaded, is left alone; otherwise the first week
      holding today, else the last week, else none. */
  function InitialSelection(snapshot: Option<Snapshot>, selected: Option<int>, todayUtcMs: int,
                            parseMs: string -> Option<int>): (r: Option<int>)
    ensures snapshot.None? || selected.Some? ==> r == selected
    ensures snapshot.Some? && selected.None? ==>
      var weeks := snapshot.value.weeks;
      && (r.Some? <==> |weeks| > 0)
      && (r.Some? ==> 0 <= r.value < |weeks|)
      && (r.Some? && HoldsInstant(weeks[r.value], todayUtcMs, parseMs) ==>
            forall j :: 0 <= j < r.value ==> !HoldsInstant(weeks[j], todayUtcMs, parseMs))
      && (r.Some? && !HoldsInstant(weeks[r.value], todayUtcMs, parseMs) ==>
            r.value == |weeks| - 1 &&
            forall j :: 0 <= j < |weeks| ==> !HoldsInstant(weeks[j], todayUtcMs, parseMs))
  {
    if snapshot.None? || selected.Some? then selected
    else
      match FirstHoldingInstant(snapshot.value.weeks, todayUtcMs, parseMs, 0)
      case Some(i) => Some(i)
      case None => if |snapshot.value.weeks| > 0 then Some(|snapshot.value.weeks| - 1) else None
  }

  /** When reading the dates as instants holds today for exactly the weeks
      whose string range holds today's date, the page opens on the week
      `getDefaultWeekIndex` chooses. */
  lemma {:induction false} InitialSelectionIsDefault(snap: Snapshot, todayUtcMs: int, todayISO: string,
                                                     parseMs: string -> Option<int>)
    requires forall i :: 0 <= i < |snap.weeks| ==>
      (HoldsInstant(snap.weeks[i], todayUtcMs, parseMs) <==> Weeks.HoldsDay(snap.weeks[i], todayISO))
    ensures var d := Weeks.GetDefaultWeekIndex(Some(snap), todayISO);
      InitialSelection(Some(snap), None, todayUtcMs, parseMs) == if d.None? then None else Some(d.value as int)
  {
    SameFirst(snap.weeks, todayUtcMs, todayISO, parseMs, 0);
  }

  lemma {:induction false} SameFirst(weeks: seq<Week>, todayUtcMs: int, todayISO: string,
                                     parseMs: string -> Option<int>, from: nat)
    requires from <= |weeks|
    requires forall i :: 0 <= i < |weeks| ==>
      (HoldsInstant(weeks[i], todayUtcMs, parseMs) <==> Weeks.HoldsDay(weeks[i], todayISO))
    ensures FirstHoldingInstant(weeks, todayUtcMs, parseMs, from) == Weeks.FirstHolding(weeks, todayISO, from)
    decreases |weeks| - from
  {
    if from < |weeks| && !HoldsInstant(weeks[from], todayUtcMs, parseMs) {
      SameFirst(weeks, todayUtcMs, todayISO, parseMs, from + 1);
    }
  }

  // ---- previous / next ----

  /** `selectedWeekIdx ?? (weeks.length - 1)`, the week the buttons move from. */
  function Current(weekCount: nat, selected: Option<int>): int {
    if selected.Some? then selected.value else weekCount - 1
  }

  /** The "previous" button: one week back when there is one. */
  function Prev(weekCount: nat, selected: Option<int>): (r: Option<int>)
    ensures Current(weekCount, selected) > 0 ==> r == Some(Current(weekCount, selected) - 1)
    ensures Current(weekCount, selected) <= 0 ==> r == selected
  {
    var current := Current(weekCount, selected);
    if current > 0 then Some(current - 1) else selected
  }

  /** The "next" button: one week on when there is one. */
  function Next(weekCount: nat, selected: Option<int>): (r: Option<int>)
    ensures Current(weekCount, selected) < weekCount - 1 ==> r == Some(Current(weekCount, selected) + 1)
    ensures Current(weekCount, selected) >= weekCount - 1 ==> r == selected
  {
    var current := Current(weekCount, selected);
    if current < weekCount - 1 then Some(current + 1) else selected
  }

  /** The "previous" button is disabled exactly when pressing it would
      change nothing. */
  function PrevDisabled(weekCount: nat, selected: Option<int>): (r: bool)
    ensures r <==> Prev(weekCount, selected) == selected
  {
    Current(weekCount, selected) <= 0
  }

  /** The "next" button is disabled exactly when pressing it would change
      nothing. */
  function NextDisabled(weekCount: nat, selected: Option<int>): (r: bool)
    ensures r <==> Next(weekCount, selected) == selected
  {
    Current(weekCount, selected) >= weekCount - 1
  }

  /** The week the buttons move from is a listed week. */
  predicate InRange(weekCount: nat, selected: Option<int>) {
    0 <= Current(weekCount, selected) < weekCount
  }

  /** Neither button ever leaves the list of weeks. */
  lemma ButtonsStayInRange(weekCount: nat, selected: Option<int>)
    requires InRange(weekCount, selected)
    ensures InRange(weekCount, Prev(weekCount, selected))
    ensures InRange(weekCount, Next(weekCount, selected))
  {
  }

  /** "Next" undoes "previous" and "previous" undoes "next" whenever the
      first press moved. */
  lemma ButtonsUndoEachOther(weekCount: nat, selected: Option<int>)
    requires InRange(weekCount, selected)
    ensures !PrevDisabled(weekCount, selected) ==>
      Next(weekCount, Prev(weekCount, selected)) == Some(Current(weekCount, selected))
    ensures !NextDisabled(weekCount, selected) ==>
      Prev(weekCount, Next(weekCount, selected)) == Some(Current(weekCount, selected))
  {
  }

  // ---- the week drawn ----

  /** `buildSelectedWeek(snapshot, selectedWeekIdx, "all", "all")`: with no
      filter, the chosen week exactly as stored. */
  function SelectedWeek(snapshot: Option<Snapshot>, selected: Option<int>): (r: Option<Week>)
    ensures snapshot.None? ==> r.None?
    ensures snapshot.Some? ==>
      var idx := SnapshotService.DefaultIndex(|snapshot.value.weeks|, selected);
      (r.Some? <==> idx.Some? && 0 <= idx.value < |snapshot.value.weeks|) &&
      (r.Some? ==> r.value == snapshot.value.weeks[idx.value])
  {
    if snapshot.None? then None
    else
      var r := SnapshotService.BuildSelectedWeek(snapshot.value.weeks, selected, "all", "all");
      if r.Some? then
        SnapshotService.SelectedWeekSessions(snapshot.value.weeks, selected, "all", "all");
        r
      else r
  }

  /** `sessions.find(s => s.hour === h && s.weekday === day)`: the cell drawn
      at hour `h` of weekday `day`. */
  function SessionAt(sessions: seq<Session>, h: real, day: int): (r: Option<Session>)
    ensures r.Some? ==> r.value in sessions && r.value.hour == h && r.value.weekday == day
    ensures r.Some? ==> exists i :: (0 <= i < |sessions| && sessions[i] == r.value &&
      forall j :: 0 <= j < i ==> !(sessions[j].hour == h && sessions[j].weekday == day))
    ensures r.None? ==> forall s :: s in sessions ==> !(s.hour == h && s.weekday == day)
  {
    if |sessions| == 0 then None
    else if sessions[0].hour == h && sessions[0].weekday == day then Some(sessions[0])
    else
      var rest := SessionAt(sessions[1..], h, day);
      if rest.Some? then
        ghost var i :| 0 <= i < |sessions[1..]| && sessions[1..][i] == rest.value &&
          forall j :: 0 <= j < i ==> !(sessions[1..][j].hour == h && sessions[1..][j].weekday == day);
        assert sessions[i + 1] == rest.value;
        rest
      else rest
  }

  /** The absence code shown in a cell: `extractAbsenceCode` of its class,
      none for an empty cell or class. */
  function CellCode(cell: Option<Session>): (r: Option<string>)
    ensures cell.None? || cell.value.cssClass.None? ==> r.None?
    ensures cell.Some? && cell.value.cssClass.Some? ==>
      r == Calculations.ExtractAbsenceCode(cell.value.cssClass)
  {
    if cell.None? then None else Calculations.ExtractAbsenceCode(cell.value.cssClass)
  }

  // ---- colours ----

  const AbsenceCodes: seq<string> := ["F", "J", "C", "E", "R", "H"]

  /** The colour family of each known absence code. */
  datatype Tone = Red | Emerald | Teal | Purple | Amber | Slate

  /** The branch of the `switch` that a code takes: none for `null` and for
      every code but the six. */
  function ToneOf(code: Option<string>): (r: Option<Tone>)
    ensures r.Some? <==> code.Some? && code.value in AbsenceCodes
    ensures r.Some? ==> CodeOfTone(r.value) == code.value
  {
    if code.None? then None
    else if code.value == "F" then Some(Red)
    else if code.value == "J" then Some(Emerald)
    else if code.value == "C" then Some(Teal)
    else if code.value == "E" then Some(Purple)
    else if code.value == "R" then Some(Amber)
    else if code.value == "H" then Some(Slate)
    else None
  }

  /** The code each colour family stands for. */
  function CodeOfTone(t: Tone): string {
    match t
    case Red => "F"
    case Emerald => "J"
    case Teal => "C"
    case Purple => "E"
    case Amber => "R"
    case Slate => "H"
  }

  /** The family's Tailwind colour name. */
  function ToneName(t: Tone): (r: string)
    ensures |r| > 0
  {
    match t
    case Red => "red"
    case Emerald => "emerald"
    case Teal => "teal"
    case Purple => "purple"
    case Amber => "amber"
    case Slate => "slate"
  }

  /** Background, text and border of one family; the background is shade
      200 for "slate" and 100 for the others. */
  function ToneClass(t: Tone): (r: string)
    ensures |r| > 3 && r[3] == ToneName(t)[0]
  {
    var name := ToneName(t);
    var shade := if t == Slate then "-200" else "-100";
    "bg-" + name + shade + " text-" + name + "-900 border-" + name + "-300"
  }

  /** `absenceColorClass`: a class for each of the six known codes, none for
      anything else, and a different class for each code. */
  function AbsenceColorClass(code: Option<string>): (r: string)
    ensures r != "" <==> code.Some? && code.value in AbsenceCodes
    ensures r != "" ==> r == ToneClass(ToneOf(code).value) && CodeOfTone(ToneOf(code).value) == code.value
  {
    match ToneOf(code)
    case None => ""
    case Some(t) => ToneClass(t)
  }

  /** Each colour family has its own class: they differ in the letter after
      `bg-`. */
  lemma ToneClassesDistinct(s: Tone, t: Tone)
    requires s != t
    ensures ToneClass(s) != ToneClass(t)
  {
    assert ToneName(s)[0] != ToneName(t)[0];
  }

  /** The six classes differ, so the class tells the code. */
  lemma AbsenceClassesDistinct(a: string, b: string)
    requires AbsenceColorClass(Some(a)) != "" && a != b
    ensures AbsenceColorClass(Some(a)) != AbsenceColorClass(Some(b))
  {
    if AbsenceColorClass(Some(b)) != "" {
      ToneClassesDistinct(ToneOf(Some(a)).value, ToneOf(Some(b)).value);
    }
  }

  const DotPalette: seq<string> := [
    "bg-blue-200", "bg-green-200", "bg-yellow-200", "bg-pink-200", "bg-cyan-200",
    "bg-lime-200", "bg-indigo-200", "bg-orange-200", "bg-fuchsia-200", "bg-sky-200"]

  /** `moduleColorClass`: white for a missing or empty name, otherwise the
      palette entry at the name's unsigned 32-bit hash modulo ten. The hash
      is the one `moduleColorStyle` of `lib/utils/ui.ts` computes, so the
      entry is the one at that style's slot number minus one. */
  function ModuleColorClass(mod: Option<string>): (r: string)
    ensures mod.None? || mod.value == "" ==> r == "bg-white"
    ensures mod.Some? && mod.value != "" ==>
      r == DotPalette[Ui.HashOf(mod.value) % 10] && r == DotPalette[Ui.ModuleSlot(mod.value) - 1]
  {
    if mod.None? || mod.value == "" then "bg-white" else DotPalette[Ui.HashOf(mod.value) % 10]
  }

  /** The colour names of the palette start with ten different letters. */
  const DotInitials: string := "bgypcliofs"

  lemma DotInitial(k: int)
    requires 0 <= k < 10
    ensures |DotPalette[k]| > 3 && DotPalette[k][3] == DotInitials[k]
  {
  }

  lemma DotPaletteDistinct(i: int, j: int)
    requires 0 <= i < 10 && 0 <= j < 10 && i != j
    ensures DotPalette[i] != DotPalette[j]
  {
    DotInitial(i);
    DotInitial(j);
    assert DotInitials[i] != DotInitials[j];
  }

  /** Two module names share a dot colour on this page exactly when they
      share a colour in the styles of `lib/utils/ui.ts`. */
  lemma DotColourMatchesModuleStyle(a: string, b: string)
    requires a != "" && b != ""
    ensures ModuleColorClass(Some(a)) == ModuleColorClass(Some(b)) <==>
            Ui.ModuleColorStyle(Some(a)) == Ui.ModuleColorStyle(Some(b))
  {
    if Ui.ModuleSlot(a) != Ui.ModuleSlot(b) {
      Ui.ModuleStylesDistinct(a, b);
      DotPaletteDistinct(Ui.ModuleSlot(a) - 1, Ui.ModuleSlot(b) - 1);
    }
  }
}
