/** The read-only timetable of `app/horario/page.tsx`: hours per module, the
    merging of consecutive equal hours of a day into one tall cell, and the
    colour of a module's cells. The timetable is six hour rows of five day
    columns; a cell holds a module code or `null`. */
module HorarioPage {
  import opened Wrappers
  import opened Assoc
  import opened Calculations
  import opened SnapshotModel
  import opened Seqs
  import SnapshotService
  import Aggregation

  type Schedule = seq<seq<Option<string>>>

  const Hours: nat := 6
  const Days: nat := 5

  /** What the page indexes: `createEmptySchedule` gives exactly six rows
      of five cells, and the merge reads `schedule[hour][day]` for the first
      six rows and five days only, so longer rows and extra rows are
      ignored. */
  predicate Indexable(s: Schedule) {
    |s| >= Hours && forall h :: 0 <= h < Hours ==> |s[h]| >= Days
  }

  // ---- hoursPerModule and totalHours ----

  /** A cell counts for `if (moduleCode)`: present and not empty. */
  predicate Truthy(c: Option<string>) { c.Some? && c.value != "" }

  /** The codes of the counted cells of a row, left to right. */
  function RowCodes(row: seq<Option<string>>): (r: seq<string>)
    ensures |r| <= |row|
  {
    if |row| == 0 then []
    else if Truthy(row[0]) then [row[0].value] + RowCodes(row[1..])
    else RowCodes(row[1..])
  }

  /** The codes of all counted cells, hour row by hour row, as the loops
      visit them. */
  function CellCodes(s: Schedule): seq<string> {
    if |s| == 0 then [] else RowCodes(s[0]) + CellCodes(s[1..])
  }

  /** `hoursPerModule`: for each module the number of its cells; no entry
      for a module without cells, and none at all before the timetable
      loads. */
  function HoursPerModule(schedule: Option<Schedule>): (r: AList<nat>)
    ensures schedule.None? ==> r == []
    ensures schedule.Some? ==> UniqueKeys(r)
    ensures schedule.Some? ==> forall m ::
      GetOr(r, m, 0) == SnapshotService.Occurrences(CellCodes(schedule.value), m) &&
      (HasKey(r, m) <==> SnapshotService.Occurrences(CellCodes(schedule.value), m) > 0)
  {
    if schedule.None? then []
    else
      var codes := CellCodes(schedule.value);
      forall m ensures
        GetOr(SnapshotService.BumpAll(codes), m, 0) == SnapshotService.Occurrences(codes, m) &&
        (HasKey(SnapshotService.BumpAll(codes), m) <==> SnapshotService.Occurrences(codes, m) > 0) {
        SnapshotService.BumpAllMeaning(codes, m);
      }
      SnapshotService.BumpAllMeaning(codes, "");
      SnapshotService.BumpAll(codes)
  }

  /** The number of counted cells in a row. */
  function CountTruthy(row: seq<Option<string>>): nat {
    if |row| == 0 then 0 else (if Truthy(row[0]) then 1 else 0) + CountTruthy(row[1..])
  }

  lemma {:induction false} RowCodesCount(row: seq<Option<string>>)
    ensures |RowCodes(row)| == CountTruthy(row)
  {
    if |row| > 0 {
      RowCodesCount(row[1..]);
    }
  }

  /** The number of counted cells of the timetable. */
  function CountCells(s: Schedule): nat {
    if |s| == 0 then 0 else CountTruthy(s[0]) + CountCells(s[1..])
  }

  lemma {:induction false} CellCodesCount(s: Schedule)
    ensures |CellCodes(s)| == CountCells(s)
  {
    if |s| > 0 {
      RowCodesCount(s[0]);
      CellCodesCount(s[1..]);
    }
  }

  /** `totalHours`: the sum of the hours per module. */
  function TotalHours(schedule: Option<Schedule>): (r: int)
    ensures schedule.None? ==> r == 0
  {
    SumBy(HoursPerModule(schedule), Aggregation.NatValue)
  }

  /** The total is the number of cells holding a module. */
  lemma TotalHoursCountsCells(schedule: Schedule)
    ensures TotalHours(Some(schedule)) == CountCells(schedule)
  {
    SnapshotService.BumpAllMeaning(CellCodes(schedule), "");
    CellCodesCount(schedule);
  }

  // ---- mergedSchedule ----

  datatype Cell = Cell(moduleCode: Option<string>, rowspan: nat, skip: bool)

  /** The hours of one day, top to bottom. */
  function Column(s: Schedule, day: nat): (col: seq<Option<string>>)
    requires Indexable(s) && day < Days
    ensures |col| == Hours
    ensures forall h :: 0 <= h < Hours ==> col[h] == s[h][day]
  {
    seq(Hours, h requires 0 <= h < Hours && Indexable(s) && day < Days => s[h][day])
  }

  /** Hour `h` continues the cell above it: it holds the same code, and a
      code, not `null`. An empty-string code does merge. */
  predicate Continues(col: seq<Option<string>>, h: int)
    requires 0 <= h < |col|
  {
    h > 0 && col[h].Some? && col[h] == col[h - 1]
  }

  /** The first hour after `h` that does not continue the cell at `h`. */
  function RunEnd(col: seq<Option<string>>, h: nat): (e: nat)
    requires h < |col|
    ensures h < e <= |col|
    ensures forall j :: h < j < e ==> Continues(col, j)
    ensures e < |col| ==> !Continues(col, e)
    decreases |col| - h
  {
    if h + 1 == |col| || !Continues(col, h + 1) then h + 1 else RunEnd(col, h + 1)
  }

  /** The merged day the page should draw: a cell that continues the one
      above is skipped with rowspan 0, every other cell spans its run. */
  function MergedColumn(col: seq<Option<string>>): (r: seq<Cell>)
    ensures |r| == |col|
  {
    seq(|col|, h requires 0 <= h < |col| =>
      if Continues(col, h) then Cell(col[h], 0, true) else Cell(col[h], RunEnd(col, h) - h, false))
  }

  /** The inner loop of `mergedSchedule` for one day: it remembers the code
      and start of the current cell and either grows that cell or starts a
      new one. */
  method MergeDay(col: seq<Option<string>>) returns (merged: seq<Cell>)
    requires |col| > 0
    ensures merged == MergedColumn(col)
  {
    var current := col[0];
    var start := 0;
    merged := [Cell(col[0], 1, false)];
    var hour := 1;
    while hour < |col|
      invariant 1 <= hour <= |col| && |merged| == hour
      invariant 0 <= start < hour && !Continues(col, start)
      invariant current == col[hour - 1] && current == col[start]
      invariant forall j :: start < j < hour ==> Continues(col, j)
      invariant merged[start] == Cell(col[start], hour - start, false)
      invariant forall j :: start < j < hour ==> merged[j] == Cell(col[j], 0, true)
      invariant forall j :: 0 <= j < start ==> merged[j] == MergedColumn(col)[j]
    {
      var moduleCode := col[hour];
      if moduleCode == current && moduleCode.Some? {
        merged := merged[start := Cell(col[start], hour + 1 - start, false)] + [Cell(moduleCode, 0, true)];
      } else {
        assert RunEnd(col, start) == hour by { RunEndAt(col, start, hour); }
        current := moduleCode;
        start := hour;
        merged := merged + [Cell(moduleCode, 1, false)];
      }
      hour := hour + 1;
    }
    assert RunEnd(col, start) == |col| by { RunEndAt(col, start, |col|); }
  }

  /** A run that continues up to `e` and stops there ends at `e`. */
  lemma {:induction false} RunEndAt(col: seq<Option<string>>, h: nat, e: nat)
    requires h < e <= |col|
    requires forall j :: h < j < e ==> Continues(col, j)
    requires e < |col| ==> !Continues(col, e)
    ensures RunEnd(col, h) == e
    decreases e - h
  {
    if h + 1 < e {
      RunEndAt(col, h + 1, e);
    }
  }

  /** `mergedSchedule`: one merged column per day, none before the
      timetable loads. */
  method MergedSchedule(schedule: Option<Schedule>) returns (merged: seq<seq<Cell>>)
    requires schedule.Some? ==> Indexable(schedule.value)
    ensures schedule.None? ==> merged == []
    ensures schedule.Some? ==>
      (|merged| == Days && forall d :: 0 <= d < Days ==> merged[d] == MergedColumn(Column(schedule.value, d)))
  {
    if schedule.None? {
      return [];
    }
    merged := [];
    var day := 0;
    while day < Days
      invariant 0 <= day <= Days && |merged| == day
      invariant forall d :: 0 <= d < day ==> merged[d] == MergedColumn(Column(schedule.value, d))
    {
      var cells := MergeDay(Column(schedule.value, day));
      merged := merged + [cells];
      day := day + 1;
    }
  }

  /** The rowspans from hour `h` on. */
  function SpanFrom(cells: seq<Cell>, h: nat): nat
    requires h <= |cells|
    decreases |cells| - h
  {
    if h == |cells| then 0 else cells[h].rowspan + SpanFrom(cells, h + 1)
  }

  lemma {:induction false} SkippedSpanNothing(cells: seq<Cell>, h: nat, e: nat)
    requires h <= e <= |cells|
    requires forall j :: h <= j < e ==> cells[j].rowspan == 0
    ensures SpanFrom(cells, h) == SpanFrom(cells, e)
    decreases e - h
  {
    if h < e {
      SkippedSpanNothing(cells, h + 1, e);
    }
  }

  /** From a cell that starts a run, the rowspans cover every remaining
      hour exactly once. */
  lemma {:induction false} SpansCoverFrom(col: seq<Option<string>>, h: nat)
    requires h < |col| && !Continues(col, h)
    ensures SpanFrom(MergedColumn(col), h) == |col| - h
    decreases |col| - h
  {
    var cells := MergedColumn(col);
    var e := RunEnd(col, h);
    SkippedSpanNothing(cells, h + 1, e);
    if e < |col| {
      SpansCoverFrom(col, e);
    }
  }

  /** The rowspans of a merged day add up to its number of hours, six for
      the timetable. */
  lemma SpansCoverDay(col: seq<Option<string>>)
    requires |col| > 0
    ensures SpanFrom(MergedColumn(col), 0) == |col|
  {
    SpansCoverFrom(col, 0);
  }

  /** A cell that continues the one above belongs to a run that starts at
      an earlier drawn hour with the same code and reaches past it. */
  lemma {:induction false} ContinuesHasHead(col: seq<Option<string>>, h: nat)
    requires h < |col| && Continues(col, h)
    ensures exists k ::
      (0 <= k < h && !Continues(col, k) && col[k] == col[h] && RunEnd(col, k) > h &&
       forall j :: k < j <= h ==> Continues(col, j))
  {
    if Continues(col, h - 1) {
      ContinuesHasHead(col, h - 1);
      var k :| 0 <= k < h - 1 && !Continues(col, k) && col[k] == col[h - 1] &&
        forall j :: k < j <= h - 1 ==> Continues(col, j);
      HeadSpansTo(col, k, h);
    } else {
      HeadSpansTo(col, h - 1, h);
    }
  }

  /** A drawn cell whose run continues through hour `h` spans at least to
      `h`. */
  lemma HeadSpansTo(col: seq<Option<string>>, k: nat, h: nat)
    requires k < h < |col| && !Continues(col, k)
    requires forall j :: k < j <= h ==> Continues(col, j)
    ensures RunEnd(col, k) > h
  {
    var e := RunEnd(col, k);
    if e <= h {
      assert false;
    }
  }

  /** A skipped cell shows the code of the nearest cell above that is
      drawn, whose rowspan reaches down to it, and every cell between them
      is skipped too. */
  lemma SkippedShowsHead(col: seq<Option<string>>, h: nat)
    requires h < |col| && MergedColumn(col)[h].skip
    ensures exists k ::
      (0 <= k < h && !MergedColumn(col)[k].skip &&
       MergedColumn(col)[k].moduleCode == MergedColumn(col)[h].moduleCode &&
       MergedColumn(col)[k].rowspan >= h - k + 1 &&
       forall j :: k < j <= h ==> MergedColumn(col)[j].skip)
  {
    var cells := MergedColumn(col);
    assert Continues(col, h);
    ContinuesHasHead(col, h);
    var k :| 0 <= k < h && !Continues(col, k) && col[k] == col[h] && RunEnd(col, k) > h &&
      forall j :: k < j <= h ==> Continues(col, j);
    assert !cells[k].skip && cells[k].rowspan == RunEnd(col, k) - k;
  }

  // ---- getModuleColor ----

  /** `modules`: the legend's module codes that are not retos, in order. */
  function ScheduleModules(legend: Legend): (r: seq<string>)
    ensures forall m :: m in r <==> HasKey(legend.modules, m) && !IsRetoModule(m, Get(legend.modules, m))
    ensures IsSubsequence(r, Keys(legend.modules))
  {
    Restricted(legend.modules, Keys(legend.modules))
  }

  /** `m => !isRetoModule(m, legend.modules[m])` */
  function NotRetoIn(m: AList<string>): string -> bool {
    k => !IsRetoModule(k, Get(m, k))
  }

  /** `keys.filter(...)`: the keys whose module is not a reto, in order. */
  function Restricted(m: AList<string>, keys: seq<string>): (r: seq<string>)
    ensures forall k :: k in r <==> k in keys && !IsRetoModule(k, Get(m, k))
    ensures r == Filter(keys, NotRetoIn(m))
    ensures IsSubsequence(r, keys)
  {
    FilterIsSubsequence(keys, NotRetoIn(m));
    if |keys| == 0 then []
    else if !IsRetoModule(keys[0], Get(m, keys[0])) then [keys[0]] + Restricted(m, keys[1..])
    else Restricted(m, keys[1..])
  }

  const Palette: seq<string> := [
    "bg-blue-100 dark:bg-blue-950 border-blue-300 dark:border-blue-800",
    "bg-green-100 dark:bg-green-950 border-green-300 dark:border-green-800",
    "bg-purple-100 dark:bg-purple-950 border-purple-300 dark:border-purple-800",
    "bg-orange-100 dark:bg-orange-950 border-orange-300 dark:border-orange-800",
    "bg-pink-100 dark:bg-pink-950 border-pink-300 dark:border-pink-800",
    "bg-cyan-100 dark:bg-cyan-950 border-cyan-300 dark:border-cyan-800",
    "bg-yellow-100 dark:bg-yellow-950 border-yellow-300 dark:border-yellow-800",
    "bg-red-100 dark:bg-red-950 border-red-300 dark:border-red-800"]

  const Muted: string := "bg-muted/20"

  /** `indexOf`: the first position of `x`, or -1. */
  function IndexOf(s: seq<string>, x: string): (i: int)
    ensures -1 <= i < |s|
    ensures i >= 0 ==> s[i] == x && forall j :: 0 <= j < i ==> s[j] != x
    ensures i == -1 <==> x !in s
  {
    if |s| == 0 then -1
    else if s[0] == x then 0
    else var j := IndexOf(s[1..], x); if j == -1 then -1 else j + 1
  }

  /** `colors[i % 8]` with JavaScript's remainder, which keeps the sign of
      `i`: -1 leaves the palette and reads `undefined`. */
  function PaletteAt(i: int): Option<string> {
    if 0 <= i then Some(Palette[i % |Palette|]) else None
  }

  /** `getModuleColor`: muted for an empty cell, the palette colour of the
      module's position (cycling every eight) for a listed module, and
      `undefined` for a module the list does not have. */
  function ModuleColor(modules: seq<string>, moduleCode: Option<string>): (r: Option<string>)
    ensures !Truthy(moduleCode) ==> r == Some(Muted)
    ensures Truthy(moduleCode) && moduleCode.value !in modules ==> r.None?
    ensures Truthy(moduleCode) && moduleCode.value in modules ==>
      exists i :: 0 <= i < |modules| && modules[i] == moduleCode.value &&
                  (forall j :: 0 <= j < i ==> modules[j] != moduleCode.value) && r == Some(Palette[i % 8])
  {
    if !Truthy(moduleCode) then Some(Muted) else PaletteAt(IndexOf(modules, moduleCode.value))
  }

  /** In a list without repeats, `indexOf` finds each element where it is. */
  lemma IndexOfDistinct(modules: seq<string>, i: nat)
    requires i < |modules|
    requires forall j, k :: 0 <= j < k < |modules| ==> modules[j] != modules[k]
    ensures IndexOf(modules, modules[i]) == i
  {
    var a := IndexOf(modules, modules[i]);
    assert modules[a] == modules[i];
  }

  /** Modules eight places apart in the list share a colour. */
  lemma ColorsCycle(modules: seq<string>, i: nat)
    requires i + 8 < |modules| && modules[i] != "" && modules[i + 8] != ""
    requires forall j, k :: 0 <= j < k < |modules| ==> modules[j] != modules[k]
    ensures ModuleColor(modules, Some(modules[i])) == ModuleColor(modules, Some(modules[i + 8]))
  {
    IndexOfDistinct(modules, i);
    IndexOfDistinct(modules, i + 8);
    assert (i + 8) % 8 == i % 8;
  }
}
