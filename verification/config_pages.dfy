/** The two configuration pages: `app/configuracion/horario/page.tsx`, where
    the weekly hours of each ordinary module are edited, and
    `app/configuracion/retos/page.tsx`, where each reto is assigned the
    modules its absences go to. Only the map updates and the lists the
    pages show are modelled; saving is the caller's business. */
module ConfigHorarioPage {
  import opened Wrappers
  import opened Assoc
  import opened Num
  import opened Seqs
  import opened SnapshotModel
  import RetoDistribution
  import ConfigStatus

  /** One row of the hours table. */
  datatype HoursRow = HoursRow(code: string, moduleLabel: string, hours: real)

  /** `Number.isFinite(hoursPerModule[m]) ? hoursPerModule[m] : 0` */
  function ShownHours(hpm: AList<Number>, m: string): (r: real)
    ensures (Get(hpm, m).Some? && Get(hpm, m).value.Finite?) ==> r == Get(hpm, m).value.value
    ensures !(Get(hpm, m).Some? && Get(hpm, m).value.Finite?) ==> r == 0.0
  {
    var v := Get(hpm, m);
    if v.Some? && v.value.Finite? then v.value.value else 0.0
  }

  /** The rows for the given legend keys. */
  function RowsFor(keys: seq<string>, legend: Legend, hpm: AList<Number>): (r: seq<HoursRow>)
    ensures |r| == |keys|
    ensures forall i :: 0 <= i < |r| ==>
      r[i] == HoursRow(keys[i], ModuleLabel(legend, keys[i]), ShownHours(hpm, keys[i]))
  {
    if |keys| == 0 then [] else [HoursRow(keys[0], ModuleLabel(legend, keys[0]), ShownHours(hpm, keys[0]))] + RowsFor(keys[1..], legend, hpm)
  }

  /** The codes of the rows, in order. */
  function RowCodes(rows: seq<HoursRow>): (r: seq<string>)
    ensures |r| == |rows| && forall i :: 0 <= i < |rows| ==> r[i] == rows[i].code
  {
    if |rows| == 0 then [] else [rows[0].code] + RowCodes(rows[1..])
  }

  /** The table: a row for each legend module that is not a reto, in legend
      order, with its label and shown hours. */
  function HoursRows(legend: Legend, hpm: AList<Number>): (r: seq<HoursRow>)
    ensures forall row :: row in r ==>
      row.code in Keys(legend.modules) && !RetoDistribution.IsRetoKey(legend, row.code)
    ensures forall k :: k in Keys(legend.modules) && !RetoDistribution.IsRetoKey(legend, k) ==>
      exists i :: 0 <= i < |r| && r[i].code == k
    ensures forall i :: 0 <= i < |r| ==>
      r[i] == HoursRow(r[i].code, ModuleLabel(legend, r[i].code), ShownHours(hpm, r[i].code))
    ensures IsSubsequence(RowCodes(r), Keys(legend.modules))
  {
    var keys := RetoDistribution.KeysWhere(Keys(legend.modules), legend, false);
    var r := RowsFor(keys, legend, hpm);
    assert RowCodes(r) == keys;
    RetoDistribution.KeysWherePartition(Keys(legend.modules), legend, "");
    forall k | k in Keys(legend.modules) && !RetoDistribution.IsRetoKey(legend, k)
      ensures exists i :: 0 <= i < |r| && r[i].code == k
    {
      RetoDistribution.KeysWherePartition(Keys(legend.modules), legend, k);
      var i :| 0 <= i < |keys| && keys[i] == k;
      assert r[i].code == k;
    }
    forall row | row in r
      ensures row.code in Keys(legend.modules) && !RetoDistribution.IsRetoKey(legend, row.code)
    {
      var i :| 0 <= i < |r| && r[i] == row;
      RetoDistribution.KeysWherePartition(Keys(legend.modules), legend, keys[i]);
    }
    r
  }

  /** The input's `onChange`: `Number(value)`, stored as 0 when not finite. */
  function EditHours(hpm: AList<Number>, m: string, input: string): (r: AList<Number>)
    ensures Get(r, m) == Some(if StringToNumber(input).Finite? then StringToNumber(input) else Finite(0.0))
    ensures forall k :: k != m ==> Get(r, k) == Get(hpm, k)
  {
    var n := StringToNumber(input);
    Put(hpm, m, if n.Finite? then n else Finite(0.0))
  }

  /** "Poner todo a 0": every stored key, now with 0 hours. */
  function ResetAllHours(hpm: AList<Number>): (r: AList<Number>)
    ensures Keys(r) == Keys(hpm)
    ensures forall i :: 0 <= i < |r| ==> r[i].1 == Finite(0.0)
  {
    if |hpm| == 0 then [] else [(hpm[0].0, Finite(0.0))] + ResetAllHours(hpm[1..])
  }

  /** After a reset every module shows 0 hours, and the timetable counts as
      unset for the status route. */
  lemma {:induction false} ResetShowsZero(hpm: AList<Number>, m: string)
    ensures ShownHours(ResetAllHours(hpm), m) == 0.0
    ensures forall k :: k in Keys(ResetAllHours(hpm)) ==> GetOr(ResetAllHours(hpm), k, NaN) == Finite(0.0)
    ensures ConfigStatus.HoursUnset(ResetAllHours(hpm))
  {
    var r := ResetAllHours(hpm);
    forall k | k in Keys(r) ensures GetOr(r, k, NaN) == Finite(0.0) {
      var v := Get(r, k).value;
      assert (k, v) in r;
      var i :| 0 <= i < |r| && r[i] == (k, v);
    }
    if HasKey(r, m) {
      var v := Get(r, m).value;
      var i :| 0 <= i < |r| && r[i] == (m, v);
    }
  }
}

module ConfigRetosPage {
  import opened Wrappers
  import opened Assoc
  import opened Seqs
  import opened SnapshotModel
  import Calculations
  import Num
  import RetoDistribution
  import ConfigStatus

  /** The page's own reto test, on `${code} ${legend.modules[code] || code}`. */
  predicate PageIsReto(legend: Legend, code: string) {
    Calculations.IsRetoModule(code, Some(ModuleLabel(legend, code)))
  }

  /** The page's test agrees with the one the reto distribution uses, where
      a missing label reads as empty. */
  lemma PageIsRetoAgrees(legend: Legend, code: string)
    ensures PageIsReto(legend, code) == RetoDistribution.IsRetoKey(legend, code)
  {
    Calculations.RetoLabelDefault(code);
    match Get(legend.modules, code)
    case None =>
    case Some(l) =>
      if l == "" {
        assert Calculations.RetoText(code, Some(l)) == Calculations.RetoText(code, None);
      }
  }

  /** `moduleKeys.filter((m) => !isRetoModule(m))` over the aggregated modules. */
  function NonRetoModules(snapshot: Option<Snapshot>): (r: seq<string>)
    ensures snapshot.None? ==> r == []
    ensures snapshot.Some? ==>
      r == RetoDistribution.NonRetoKeys(snapshot.value.aggregated, snapshot.value.legend)
  {
    if snapshot.None? then []
    else
      var s := snapshot.value;
      var r := Filter(Keys(s.aggregated.modules), m => !PageIsReto(s.legend, m));
      FilterSameTest(Keys(s.aggregated.modules), s.legend);
      r
  }

  lemma {:induction false} FilterSameTest(keys: seq<string>, legend: Legend)
    ensures Filter(keys, m => !PageIsReto(legend, m)) == RetoDistribution.KeysWhere(keys, legend, false)
  {
    if |keys| > 0 {
      PageIsRetoAgrees(legend, keys[0]);
      FilterSameTest(keys[1..], legend);
    }
  }

  /** `snapshot?.retos || []` */
  function PageRetos(snapshot: Option<Snapshot>): (r: seq<RetoInfo>)
    ensures snapshot.Some? && snapshot.value.retos.Some? ==> r == snapshot.value.retos.value
    ensures !(snapshot.Some? && snapshot.value.retos.Some?) ==> r == []
  {
    if snapshot.Some? && snapshot.value.retos.Some? then snapshot.value.retos.value else []
  }

  /** `!!(retoTargets[r.id]?.[m])`: a missing entry is unchecked. */
  predicate Checked(targets: AList<AList<bool>>, reto: string, m: string) {
    GetOr(GetOr(targets, reto, []), m, false)
  }

  /** The checkbox's `onChange`. */
  function Toggle(targets: AList<AList<bool>>, reto: string, m: string, checked: bool): (r: AList<AList<bool>>)
    ensures Checked(r, reto, m) == checked
    ensures forall reto', m' :: (reto', m') != (reto, m) ==> Checked(r, reto', m') == Checked(targets, reto', m')
    ensures forall reto' :: reto' != reto ==> Get(r, reto') == Get(targets, reto')
  {
    Put(targets, reto, Put(GetOr(targets, reto, []), m, checked))
  }

  /** Checking any module of a reto clears its reason in the status route. */
  lemma CheckingClearsReason(dni: string, legend: Legend, hpm: Option<AList<Num.Number>>,
                             targets: AList<AList<bool>>, reto: string, m: string)
    requires dni != ""
    ensures var r := ConfigStatus.ConfigStatusGet(Some(dni), Some(legend), hpm, Some(Toggle(targets, reto, m, true)));
      r.Status? && ConfigStatus.RetoReason(reto) !in r.reasons
  {
    var t := Toggle(targets, reto, m, true);
    var sel := GetOr(t, reto, []);
    assert (m, true) in sel;
    var i :| 0 <= i < |sel| && sel[i] == (m, true);
    assert ConfigStatus.HasTarget(t, reto);
    ConfigStatus.RetoReportedIffUnassigned(dni, legend, hpm, Some(t), reto);
  }
}
