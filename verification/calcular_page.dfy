/** The "Calcular" page of `app/calcular/page.tsx`: the conversion of the
    amount typed by the student into hours of absence, the module lists it
    reads from the server's reply, and its private copy of the absence sum. */
module CalcularPage {
  import opened Wrappers
  import opened Assoc
  import opened Num
  import opened Calculations
  import opened SnapshotModel
  import opened Seqs
  import CalculateRoute

  // ---- the private sumRecordValuesExcludingJ ----

  /** The page's `reduce`, an accumulator carried from the first entry to
      the last. */
  function ReduceNonJ(entries: AList<Number>, acc: real): real {
    if |entries| == 0 then acc else ReduceNonJ(entries[1..], acc + NonJShare(entries[0].0, entries[0].1))
  }

  /** The page's copy of `sumRecordValuesExcludingJ`. */
  function LocalSumExcludingJ(record: Option<AList<Number>>): (r: real)
    ensures record.None? ==> r == 0.0
  {
    match record
    case None => 0.0
    case Some(m) => ReduceNonJ(m, 0.0)
  }

  lemma {:induction false} ReduceNonJIsSum(entries: AList<Number>, acc: real)
    ensures ReduceNonJ(entries, acc) == acc + SumNonJ(entries)
  {
    if |entries| > 0 {
      ReduceNonJIsSum(entries[1..], acc + NonJShare(entries[0].0, entries[0].1));
    }
  }

  /** The copy computes exactly what the shared helper computes. */
  lemma LocalSumIsShared(record: Option<AList<Number>>)
    ensures LocalSumExcludingJ(record) == SumRecordValuesExcludingJ(record)
  {
    if record.Some? {
      ReduceNonJIsSum(record.value, 0.0);
    }
  }

  // ---- addedAbsences ----

  datatype Mode = Horas | Dias

  const HoursPerDay: real := 6.0

  /** `addedAbsences`: the amount itself in hours, six hours per day in
      days; a non-finite, zero or negative amount adds nothing. */
  function AddedAbsences(mode: Mode, amount: Number): (r: real)
    ensures r >= 0.0
    ensures !(amount.Finite? && amount.value > 0.0) ==> r == 0.0
    ensures amount.Finite? && amount.value > 0.0 && mode == Horas ==> r == amount.value
    ensures amount.Finite? && amount.value > 0.0 && mode == Dias ==> r == 6.0 * amount.value
  {
    var units := if amount.Finite? && amount.value > 0.0 then amount.value else 0.0;
    if mode == Horas then units else units * HoursPerDay
  }

  /** The same amount in days weighs six times what it weighs in hours. */
  lemma DaysAreSixHours(amount: Number)
    ensures AddedAbsences(Dias, amount) == HoursPerDay * AddedAbsences(Horas, amount)
  {
  }

  // ---- the module lists of the reply ----

  function MetaCode(m: CalculateRoute.Meta): string { m.code }

  function MetaIsReto(m: CalculateRoute.Meta): bool { m.isReto }

  /** `moduleKeys`: the codes of `moduleMeta`, in order; none before the
      reply arrives. */
  function ModuleKeys(calculations: Option<CalculateRoute.CalculateResponse>): (r: seq<string>)
    ensures calculations.None? ==> r == []
    ensures calculations.Some? ==>
      |r| == |calculations.value.moduleMeta| &&
      forall i :: 0 <= i < |r| ==> r[i] == calculations.value.moduleMeta[i].code
  {
    if calculations.None? then [] else MapCodes(calculations.value.moduleMeta)
  }

  function MapCodes(ms: seq<CalculateRoute.Meta>): (r: seq<string>)
    ensures |r| == |ms| && forall i :: 0 <= i < |ms| ==> r[i] == ms[i].code
  {
    if |ms| == 0 then [] else [ms[0].code] + MapCodes(ms[1..])
  }

  /** `retosAuto`: the entries of `moduleMeta` marked as retos, in order. */
  function RetosAuto(calculations: Option<CalculateRoute.CalculateResponse>): (r: seq<CalculateRoute.Meta>)
    ensures calculations.None? ==> r == []
    ensures calculations.Some? ==>
      IsSubsequence(r, calculations.value.moduleMeta) &&
      forall m :: m in r <==> m in calculations.value.moduleMeta && m.isReto
  {
    if calculations.None? then []
    else
      FilterIsSubsequence(calculations.value.moduleMeta, MetaIsReto);
      Filter(calculations.value.moduleMeta, MetaIsReto)
  }

  /** `moduleMeta.find(m => m.code === code)` */
  function FindMeta(ms: seq<CalculateRoute.Meta>, code: string): (r: Option<nat>)
    ensures r.Some? ==> r.value < |ms| && ms[r.value].code == code &&
                        forall j :: 0 <= j < r.value ==> ms[j].code != code
    ensures r.None? ==> forall j :: 0 <= j < |ms| ==> ms[j].code != code
  {
    if |ms| == 0 then None
    else if ms[0].code == code then Some(0)
    else match FindMeta(ms[1..], code)
      case None => None
      case Some(j) => Some(j + 1)
  }

  /** `selectedIsReto`: false for the general view and before the reply
      arrives; otherwise the flag of the first entry with the selected code,
      or false when no entry has it. */
  function SelectedIsReto(calculations: Option<CalculateRoute.CalculateResponse>, selected: string): (r: bool)
    ensures r <==>
      calculations.Some? && selected != CalculateRoute.General &&
      exists i :: 0 <= i < |calculations.value.moduleMeta| &&
        calculations.value.moduleMeta[i].code == selected && calculations.value.moduleMeta[i].isReto &&
        forall j :: 0 <= j < i ==> calculations.value.moduleMeta[j].code != selected
  {
    if calculations.None? || selected == CalculateRoute.General then false
    else
      match FindMeta(calculations.value.moduleMeta, selected)
      case None => false
      case Some(i) => calculations.value.moduleMeta[i].isReto
  }

  /** For a module the snapshot lists, the page reaches the same verdict
      from the reply as the server did when it chose to add a reto
      analysis. */
  lemma SelectedIsRetoMatchesServer(snap: Snapshot, selected: string, added: real)
    requires HasKey(snap.aggregated.modules, selected)
    ensures SelectedIsReto(Some(CalculateRoute.Respond(snap, selected, added)), selected) ==
            CalculateRoute.SelectedIsReto(snap, selected)
  {
    var codes := Keys(snap.aggregated.modules);
    var ms := CalculateRoute.ModuleMeta(snap, codes);
    var i :| 0 <= i < |codes| && codes[i] == selected;
    var f := FindMeta(ms, selected);
    assert f.Some?;
    assert ms[f.value] == CalculateRoute.MetaOf(snap, selected);
  }
}
