/** The "Módulos" page of `app/modulos/page.tsx`: its own copies of the
    module and reto tables, the width of a row's bar and its colour band. */
module ModulosPage {
  import opened Wrappers
  import opened Assoc
  import opened Num
  import opened Calculations
  import opened SnapshotModel
  import opened Seqs
  import CalculateUtils
  import Ui
  import opened ComplexCalculations

  /** The page's `rows`: the same rows, in the same order, as
      `useModuleCalculations`, since the page repeats its body. */
  function Rows(snapshot: Option<Snapshot>): (r: seq<ModuleRow>)
    ensures snapshot.None? || snapshot.value.moduleCalculations.None? ==> r == []
    ensures snapshot.Some? && snapshot.value.moduleCalculations.Some? ==>
      |r| == |snapshot.value.moduleCalculations.value| && SortedDesc(r, ModulePercent) &&
      multiset(r) == multiset(ModuleRowsInOrder(snapshot.value.legend, snapshot.value.moduleCalculations.value))
    ensures r == UseModuleCalculations(snapshot)
  {
    if snapshot.None? || snapshot.value.moduleCalculations.None? then []
    else SortDesc(ModuleRowsInOrder(snapshot.value.legend, snapshot.value.moduleCalculations.value), ModulePercent)
  }

  /** The page shows "Sin datos de módulos" exactly when there is no
      snapshot or its summaries are missing or empty. */
  function ShowsNoData(snapshot: Option<Snapshot>): (r: bool)
    ensures r <==> snapshot.None? || snapshot.value.moduleCalculations.None? ||
                   |snapshot.value.moduleCalculations.value| == 0
  {
    snapshot.None? || |Rows(snapshot)| == 0
  }

  // ---- retoRows ----

  /** One reto row of the page: named by its label, or by its id when the
      label is empty; absences from `sumarFaltas` of the aggregate's counts,
      which are `undefined` for a reto without aggregates. */
  function PageRetoRowOf(agg: Aggregated, reto: RetoInfo, sumar: CalculateUtils.Sumar): (r: RetoRow)
    ensures r.id == reto.id
    ensures r.name == (if reto.labelText != "" then reto.labelText else reto.id)
    ensures r.totalFaltas == sumar(CountsOf(agg, reto.id))
    ensures r.totalSesiones == ClassesOf(agg, reto.id)
    ensures r.percent == CalcPercent(r.totalFaltas, r.totalSesiones as real)
  {
    var classes := ClassesOf(agg, reto.id);
    var tf := sumar(CountsOf(agg, reto.id));
    RetoRow(reto.id, if reto.labelText != "" then reto.labelText else reto.id, tf, classes,
            CalcPercent(tf, classes as real))
  }

  function PageRetoRowsInOrder(agg: Aggregated, retos: seq<RetoInfo>, sumar: CalculateUtils.Sumar): (r: seq<RetoRow>)
    ensures |r| == |retos|
    ensures forall i :: 0 <= i < |retos| ==> r[i] == PageRetoRowOf(agg, retos[i], sumar)
  {
    if |retos| == 0 then [] else [PageRetoRowOf(agg, retos[0], sumar)] + PageRetoRowsInOrder(agg, retos[1..], sumar)
  }

  /** The page's `retoRows`: none without a snapshot or reto list; otherwise
      one row per reto, highest percentage first. */
  function RetoRows(snapshot: Option<Snapshot>, sumar: CalculateUtils.Sumar): (r: seq<RetoRow>)
    ensures snapshot.None? || snapshot.value.retos.None? ==> r == []
    ensures snapshot.Some? && snapshot.value.retos.Some? ==>
      |r| == |snapshot.value.retos.value| && SortedDesc(r, RetoPercent) &&
      multiset(r) == multiset(PageRetoRowsInOrder(snapshot.value.aggregated, snapshot.value.retos.value, sumar))
  {
    if snapshot.None? || snapshot.value.retos.None? then []
    else SortDesc(PageRetoRowsInOrder(snapshot.value.aggregated, snapshot.value.retos.value, sumar), RetoPercent)
  }

  /** Every reto has an aggregate entry and a non-empty label. */
  predicate RetosComplete(snap: Snapshot) {
    snap.retos.Some? &&
    forall i :: 0 <= i < |snap.retos.value| ==>
      snap.retos.value[i].labelText != "" && HasKey(snap.aggregated.modules, snap.retos.value[i].id)
  }

  /** The page's reto table and the hook's differ only in the two
      fallbacks: when every reto has an aggregate entry and a label, they
      are the same rows in the same order. */
  lemma RetoRowsMatchHook(snap: Snapshot, sumar: CalculateUtils.Sumar)
    requires RetosComplete(snap)
    ensures RetoRows(Some(snap), sumar) == UseRetoCalculations(Some(snap), sumar)
  {
    var p := PageRetoRowsInOrder(snap.aggregated, snap.retos.value, sumar);
    var h := HookRetoRowsInOrder(snap.aggregated, snap.retos.value, sumar);
    forall i | 0 <= i < |p| ensures p[i] == h[i] {
      var reto := snap.retos.value[i];
      assert HookCounts(snap.aggregated, reto.id) == CountsOf(snap.aggregated, reto.id);
    }
    assert p == h;
  }

  // ---- the bar and its colours ----

  /** The bar width, in percent of the cell: 20 % absence fills it, and the
      width is kept within 0 to 100. */
  function BarRatio(percent: real): (r: real)
    ensures 0.0 <= r <= 100.0
    ensures 0.0 <= percent <= 20.0 ==> r == percent * 5.0
    ensures percent >= 20.0 ==> r == 100.0
    ensures percent <= 0.0 ==> r == 0.0
  {
    Min(100.0, Max(0.0, percent / 20.0 * 100.0))
  }

  /** The page's inline gradient choice, which uses the thresholds of the
      shared palette. */
  function GradientClass(percent: real): (r: string)
    ensures r == Ui.PercentColorClasses(percent).gradient
    ensures Ui.BucketOfGradient(r) == Some(Ui.BucketOf(percent))
  {
    if percent < 7.0 then "from-emerald-500 to-teal-600"
    else if percent < 14.0 then "from-amber-500 to-orange-600"
    else "from-red-500 to-pink-600"
  }

  /** The page's inline text colour, again the shared palette's. */
  function TextClass(percent: real): (r: string)
    ensures r == Ui.PercentColorClasses(percent).text
  {
    if percent < 7.0 then "text-emerald-600"
    else if percent < 14.0 then "text-amber-600"
    else "text-red-600"
  }
}
