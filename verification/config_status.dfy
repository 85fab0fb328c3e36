/** The `GET` handler of `app/api/faltas/config/status/route.ts`: whether
    the user still has to configure the timetable hours or the modules of
    some reto, with one human-readable reason per missing piece. The three
    stored files are parameters, `None` when missing. */
module ConfigStatus {
  import opened Wrappers
  import opened Assoc
  import opened Num
  import opened Seqs
  import opened SnapshotModel
  import RetoDistribution

  datatype StatusResponse =
    | MissingDni
    | Status(needsConfig: bool, reasons: seq<string>)

  const HorarioReason: string := "Horario sin configurar"

  /** The reason emitted for a reto none of whose modules is selected. */
  function RetoReason(reto: string): string { "Reto sin módulos: " + reto }

  /** The legend keys that look like retos, in legend order. */
  function StatusRetos(legend: Legend): seq<string> {
    RetoDistribution.KeysWhere(Keys(legend.modules), legend, true)
  }

  /** No hours at all, or only zero / `NaN` ones. */
  predicate HoursUnset(hpm: AList<Number>) {
    |hpm| == 0 || forall k :: k in Keys(hpm) ==> !Truthy(GetOr(hpm, k, NaN))
  }

  /** `hoursKeys.every((k) => !Number(hoursPerModule[k]))`, key by key. */
  function AllFalsy(hpm: AList<Number>, keys: seq<string>): (r: bool)
    ensures r <==> forall k :: k in keys ==> !Truthy(GetOr(hpm, k, NaN))
  {
    if |keys| == 0 then true
    else
      assert forall k :: k in keys ==> k == keys[0] || k in keys[1..];
      !Truthy(GetOr(hpm, keys[0], NaN)) && AllFalsy(hpm, keys[1..])
  }

  /** `Object.values(retoTargets[reto] || {}).some(Boolean)` */
  predicate HasTarget(targets: AList<AList<bool>>, reto: string) {
    RetoDistribution.AnyFlag(GetOr(targets, reto, []))
  }

  /** One reason per reto without a selected module, in order. */
  function RetoReasons(retos: seq<string>, targets: AList<AList<bool>>): (r: seq<string>)
    ensures |r| <= |retos|
    ensures forall x :: x in r <==> exists reto :: reto in retos && !HasTarget(targets, reto) && x == RetoReason(reto)
  {
    if |retos| == 0 then []
    else
      var rest := RetoReasons(retos[1..], targets);
      assert forall reto :: reto in retos <==> reto == retos[0] || reto in retos[1..];
      if HasTarget(targets, retos[0]) then rest else [RetoReason(retos[0])] + rest
  }

  /** The handler, after the DNI cookie and the three optional files have
      been read. */
  function ConfigStatusGet(dni: Option<string>, legend: Option<Legend>, hoursPerModule: Option<AList<Number>>,
                           retoTargets: Option<AList<AList<bool>>>): (r: StatusResponse)
    ensures r.MissingDni? <==> dni.None? || dni.value == ""
    ensures r.Status? ==> (r.needsConfig <==> |r.reasons| > 0)
    ensures r.Status? ==>
      (HorarioReason in r.reasons <==> HoursUnset(hoursPerModule.GetOr([])))
  {
    if dni.None? || dni.value == "" then MissingDni
    else
      var lg := legend.GetOr(Legend([], []));
      var hpm := hoursPerModule.GetOr([]);
      var hoursKeys := Keys(hpm);
      var hoursAllZero := |hoursKeys| > 0 && AllFalsy(hpm, hoursKeys);
      var first := if |hoursKeys| == 0 || hoursAllZero then [HorarioReason] else [];
      var reasons := first + RetoReasons(StatusRetos(lg), retoTargets.GetOr([]));
      HorarioNotRetoReason(StatusRetos(lg), retoTargets.GetOr([]));
      Status(|reasons| > 0, reasons)
  }

  /** The timetable reason is never a reto reason: they differ in their
      first character. */
  lemma HorarioNotRetoReason(retos: seq<string>, targets: AList<AList<bool>>)
    ensures HorarioReason !in RetoReasons(retos, targets)
  {
    forall reto ensures RetoReason(reto) != HorarioReason {
      assert RetoReason(reto)[0] == 'R' && HorarioReason[0] == 'H';
    }
  }

  /** Distinct retos give distinct reasons. */
  lemma RetoReasonInjective(a: string, b: string)
    requires RetoReason(a) == RetoReason(b)
    ensures a == b
  {
    var p := "Reto sin módulos: ";
    assert RetoReason(a)[|p|..] == a && RetoReason(b)[|p|..] == b;
  }

  /** For a present DNI, a reto of the legend is reported exactly when no
      module is selected for it, and nothing else is reported for retos. */
  lemma RetoReportedIffUnassigned(dni: string, legend: Legend, hpm: Option<AList<Number>>,
                                  targets: Option<AList<AList<bool>>>, reto: string)
    requires dni != ""
    ensures var r := ConfigStatusGet(Some(dni), Some(legend), hpm, targets);
      r.Status? &&
      (RetoReason(reto) in r.reasons <==>
        reto in Keys(legend.modules) && RetoDistribution.IsRetoKey(legend, reto) && !HasTarget(targets.GetOr([]), reto))
  {
    var retos := StatusRetos(legend);
    var t := targets.GetOr([]);
    RetoDistribution.KeysWherePartition(Keys(legend.modules), legend, reto);
    HorarioNotRetoReason(retos, t);
    assert RetoReason(reto) != HorarioReason by {
      assert RetoReason(reto)[0] == 'R';
    }
    if RetoReason(reto) in RetoReasons(retos, t) {
      var other :| other in retos && !HasTarget(t, other) && RetoReason(reto) == RetoReason(other);
      RetoReasonInjective(reto, other);
    }
  }
}
