/** `lib/services/snapshotService.ts`: the tables, series and indicators the
    dashboard draws from a snapshot. */
module SnapshotService {
  import opened Wrappers
  import opened JsString
  import opened Assoc
  import opened Calculations
  import opened SnapshotModel
  import opened Aggregation
  import opened Seqs

  // ---- buildModulesTable ----

  datatype ModuleRow = ModuleRow(key: string, classes: nat, absences: string)

  /** `${code}:${cnt}` */
  function CountText(code: string, cnt: nat): string { code + ":" + NatToString(cnt) }

  predicate PassesFilter(filter: string, key: string) { filter == "all" || key == filter }

  /** The `code:cnt` items of the codes passing `absenceFilter`, in key order. */
  function AbsenceParts(counts: AList<nat>, absenceFilter: string): (r: seq<string>)
    ensures |r| <= |counts|
  {
    if |counts| == 0 then []
    else
      (if PassesFilter(absenceFilter, counts[0].0) then [CountText(counts[0].0, counts[0].1)] else [])
        + AbsenceParts(counts[1..], absenceFilter)
  }

  function AbsencesText(counts: AList<nat>, absenceFilter: string): string {
    Join(AbsenceParts(counts, absenceFilter), "  ")
  }

  function RowOf(mod: string, v: ModuleStats, absenceFilter: string): ModuleRow {
    ModuleRow(mod, v.classesGiven, AbsencesText(v.absenceCounts, absenceFilter))
  }

  /** The filtered and mapped module entries, in key order. */
  function ModuleRows(entries: AList<ModuleStats>, moduleFilter: string, absenceFilter: string): (r: seq<ModuleRow>)
    ensures |r| <= |entries|
    ensures forall i :: 0 <= i < |r| ==> PassesFilter(moduleFilter, r[i].key) && HasKey(entries, r[i].key)
  {
    if |entries| == 0 then []
    else
      var rest := ModuleRows(entries[1..], moduleFilter, absenceFilter);
      assert Keys(entries) == [entries[0].0] + Keys(entries[1..]);
      (if PassesFilter(moduleFilter, entries[0].0)
       then [RowOf(entries[0].0, entries[0].1, absenceFilter)] else [])
        + rest
  }

  /** `buildModulesTable(snapshot, moduleFilter, absenceFilter)` */
  function BuildModulesTable(snapshot: Snapshot, moduleFilter: string, absenceFilter: string): (r: seq<ModuleRow>)
    ensures forall i :: 0 <= i < |r| ==>
      PassesFilter(moduleFilter, r[i].key) && HasKey(snapshot.aggregated.modules, r[i].key)
  {
    ModuleRows(snapshot.aggregated.modules, moduleFilter, absenceFilter)
  }

  /** With the filter "all" every module gives one row, in key order. */
  lemma {:induction false} ModuleRowsAll(entries: AList<ModuleStats>, absenceFilter: string)
    ensures |ModuleRows(entries, "all", absenceFilter)| == |entries|
    ensures forall i :: 0 <= i < |entries| ==>
      ModuleRows(entries, "all", absenceFilter)[i] == RowOf(entries[i].0, entries[i].1, absenceFilter)
  {
    if |entries| > 0 {
      ModuleRowsAll(entries[1..], absenceFilter);
    }
  }

  lemma {:induction false} ModuleRowsMissing(entries: AList<ModuleStats>, mod: string, absenceFilter: string)
    requires mod != "all" && !HasKey(entries, mod)
    ensures ModuleRows(entries, mod, absenceFilter) == []
  {
    if |entries| > 0 {
      assert Keys(entries) == [entries[0].0] + Keys(entries[1..]);
      ModuleRowsMissing(entries[1..], mod, absenceFilter);
    }
  }

  /** A specific module filter gives the row of that module, or none. */
  lemma {:induction false} ModuleRowsOne(entries: AList<ModuleStats>, mod: string, absenceFilter: string)
    requires mod != "all" && UniqueKeys(entries)
    ensures HasKey(entries, mod) ==>
      ModuleRows(entries, mod, absenceFilter) == [RowOf(mod, Get(entries, mod).value, absenceFilter)]
    ensures !HasKey(entries, mod) ==> ModuleRows(entries, mod, absenceFilter) == []
  {
    if |entries| > 0 {
      assert Keys(entries) == [entries[0].0] + Keys(entries[1..]);
      if entries[0].0 == mod {
        assert !HasKey(entries[1..], mod) by {
          forall j | 0 <= j < |entries[1..]| ensures entries[1..][j].0 != mod {
            assert entries[0].0 != entries[j + 1].0;
          }
        }
        ModuleRowsMissing(entries[1..], mod, absenceFilter);
      } else {
        ModuleRowsOne(entries[1..], mod, absenceFilter);
      }
    } else {
      ModuleRowsMissing(entries, mod, absenceFilter);
    }
  }

  /** `buildModulesTable` yields one row per module for "all", and otherwise
      at most the one row of the filtered module. */
  lemma ModulesTableRows(snapshot: Snapshot, moduleFilter: string, absenceFilter: string)
    requires UniqueKeys(snapshot.aggregated.modules)
    ensures var r := BuildModulesTable(snapshot, moduleFilter, absenceFilter);
      var ms := snapshot.aggregated.modules;
      && (moduleFilter == "all" ==>
            |r| == |ms| && forall i :: 0 <= i < |ms| ==>
              r[i] == ModuleRow(ms[i].0, ms[i].1.classesGiven, AbsencesText(ms[i].1.absenceCounts, absenceFilter)))
      && (moduleFilter != "all" ==>
            |r| <= 1
            && (|r| == 1 <==> HasKey(ms, moduleFilter))
            && (|r| == 1 ==> r[0] == ModuleRow(moduleFilter, ClassesOf(snapshot.aggregated, moduleFilter),
                                               AbsencesText(Get(ms, moduleFilter).value.absenceCounts, absenceFilter))))
  {
    if moduleFilter == "all" {
      ModuleRowsAll(snapshot.aggregated.modules, absenceFilter);
    } else {
      ModuleRowsOne(snapshot.aggregated.modules, moduleFilter, absenceFilter);
    }
  }

  lemma {:induction false} AbsencePartsAll(counts: AList<nat>)
    ensures |AbsenceParts(counts, "all")| == |counts|
    ensures forall i :: 0 <= i < |counts| ==> AbsenceParts(counts, "all")[i] == CountText(counts[i].0, counts[i].1)
  {
    if |counts| > 0 {
      AbsencePartsAll(counts[1..]);
    }
  }

  lemma {:induction false} AbsencePartsMissing(counts: AList<nat>, code: string)
    requires code != "all" && !HasKey(counts, code)
    ensures AbsenceParts(counts, code) == []
  {
    if |counts| > 0 {
      assert Keys(counts) == [counts[0].0] + Keys(counts[1..]);
      AbsencePartsMissing(counts[1..], code);
    }
  }

  /** The absences text lists every code for "all"; for one code it is that
      code's `code:count`, or empty when the module has none of it. */
  lemma {:induction false} AbsencesTextMeaning(counts: AList<nat>, absenceFilter: string)
    requires UniqueKeys(counts)
    ensures absenceFilter == "all" ==>
      AbsencesText(counts, absenceFilter) == Join(seq(|counts|, i requires 0 <= i < |counts| => CountText(counts[i].0, counts[i].1)), "  ")
    ensures absenceFilter != "all" ==>
      AbsencesText(counts, absenceFilter) ==
        (if HasKey(counts, absenceFilter) then CountText(absenceFilter, Get(counts, absenceFilter).value) else "")
  {
    if absenceFilter == "all" {
      AbsencePartsAll(counts);
      assert AbsenceParts(counts, "all") == seq(|counts|, i requires 0 <= i < |counts| => CountText(counts[i].0, counts[i].1));
    } else if |counts| > 0 {
      assert Keys(counts) == [counts[0].0] + Keys(counts[1..]);
      if counts[0].0 == absenceFilter {
        assert !HasKey(counts[1..], absenceFilter) by {
          forall j | 0 <= j < |counts[1..]| ensures counts[1..][j].0 != absenceFilter {
            assert counts[0].0 != counts[j + 1].0;
          }
        }
        AbsencePartsMissing(counts[1..], absenceFilter);
        assert AbsenceParts(counts, absenceFilter) == [CountText(absenceFilter, counts[0].1)];
      } else {
        AbsencesTextMeaning(counts[1..], absenceFilter);
        assert AbsenceParts(counts, absenceFilter) == AbsenceParts(counts[1..], absenceFilter);
      }
    }
  }

  // ---- buildTopLine ----

  function FirstStart(weeks: seq<Week>): string { if |weeks| > 0 then weeks[0].weekStartISO else "" }

  function LastEnd(weeks: seq<Week>): string { if |weeks| > 0 then weeks[|weeks| - 1].weekEndISO else "" }

  /** Everything after the week count. */
  function TopLineTail(weeks: seq<Week>): (r: string)
    ensures |r| > 0 && r[0] == ' '
  {
    " semanas \U{00B7} " + FirstStart(weeks) + " \U{2192} " + LastEnd(weeks)
  }

  /** `${n} semanas · ${start} → ${end}`; a missing or empty date prints as "". */
  function BuildTopLine(weeks: seq<Week>): (r: string)
    ensures StartsWith(r, NatToString(|weeks|) + " semanas \U{00B7} ")
    ensures |LastEnd(weeks)| <= |r| && r[|r| - |LastEnd(weeks)|..] == LastEnd(weeks)
    ensures |weeks| == 0 ==> r == "0 semanas \U{00B7}  \U{2192} "
  {
    var head := NatToString(|weeks|) + " semanas \U{00B7} ";
    assert (head + FirstStart(weeks) + " \U{2192} " + LastEnd(weeks))[..|head|] == head;
    assert NatToString(|weeks|) + TopLineTail(weeks) == head + FirstStart(weeks) + " \U{2192} " + LastEnd(weeks);
    NatToString(|weeks|) + TopLineTail(weeks)
  }

  /** The number before the first space reads back as the number of weeks. */
  lemma TopLineCount(weeks: seq<Week>)
    ensures var r := BuildTopLine(weeks);
      var n := |NatToString(|weeks|)|;
      && IndexOf(r, " ") == Some(n)
      && AllDigits(r[..n]) && DigitsValue(r[..n]) == |weeks|
  {
    NatToStringValue(|weeks|);
    FirstSpaceAfterDigits(NatToString(|weeks|), TopLineTail(weeks));
  }

  lemma FirstSpaceAfterDigits(digits: string, tail: string)
    requires AllDigits(digits) && |tail| > 0 && tail[0] == ' '
    ensures IndexOf(digits + tail, " ") == Some(|digits|)
    ensures (digits + tail)[..|digits|] == digits
  {
    var r := digits + tail;
    assert r[..|digits|] == digits;
    assert OccursAt(r, " ", |digits|) by { assert r[|digits|..|digits| + 1] == [tail[0]]; }
    forall j | 0 <= j < |digits| ensures !OccursAt(r, " ", j) {
      assert r[j..j + 1] == [digits[j]];
    }
  }

  // ---- buildWeeklySeries ----

  /** A JavaScript value a series entry can hold under `label`. */
  datatype JsValue = JStr(str: string) | JNum(num: int)

  /** One entry of the weekly series, a plain object whose first two keys
      are always `label` and `total` (the object literal creates them first
      and nothing deletes them); every later key (absence codes, then
      `__index`) holds a count, kept in `rest` in key order. */
  datatype SeriesPoint = SeriesPoint(labelValue: JsValue, total: nat, rest: AList<nat>)

  /** The entry as the object's entries, in key order. */
  function Entries(p: SeriesPoint): AList<JsValue> {
    [("label", p.labelValue), ("total", JNum(p.total))]
      + seq(|p.rest|, i requires 0 <= i < |p.rest| => (p.rest[i].0, JNum(p.rest[i].1)))
  }

  /** A session the series counts: a non-empty absence code, and a title and
      code passing the filters. */
  predicate Counts(s: Session, moduleFilter: string, absenceFilter: string) {
    CodeOf(s).Some?
    && (moduleFilter == "all" || s.title == Some(moduleFilter))
    && (absenceFilter == "all" || CodeOf(s).value == absenceFilter)
  }

  /** `(v || 0) + 1` on the label's value: `0` and `""` are falsy, a
      non-empty string is concatenated with "1". */
  function OrZeroPlusOne(v: JsValue): JsValue {
    match v
    case JNum(n) => JNum(n + 1)
    case JStr(t) => if t == "" then JNum(1) else JStr(t + "1")
  }

  /** `acc.total += 1; acc[code] = (acc[code] || 0) + 1`. A code named
      "label" or "total" lands on those keys; any other code is a counter,
      which starts from `undefined`. */
  function Tally(p: SeriesPoint, code: string): SeriesPoint {
    if code == "label" then SeriesPoint(OrZeroPlusOne(p.labelValue), p.total + 1, p.rest)
    else if code == "total" then SeriesPoint(p.labelValue, p.total + 2, p.rest)
    else SeriesPoint(p.labelValue, p.total + 1, Bump(p.rest, code))
  }

  /** `{ label: w.weekStartISO, total: 0 }` */
  function SeriesStart(start: string): SeriesPoint { SeriesPoint(JStr(start), 0, []) }

  /** The codes of the sessions the series counts, in order. */
  function CountedCodes(ss: seq<Session>, moduleFilter: string, absenceFilter: string): seq<string> {
    if |ss| == 0 then []
    else
      var s := ss[|ss| - 1];
      CountedCodes(ss[..|ss| - 1], moduleFilter, absenceFilter)
        + (if Counts(s, moduleFilter, absenceFilter) then [CodeOf(s).value] else [])
  }

  /** Tallying the codes one after another. */
  function TallyAll(codes: seq<string>, start: string): SeriesPoint {
    if |codes| == 0 then SeriesStart(start) else Tally(TallyAll(codes[..|codes| - 1], start), codes[|codes| - 1])
  }

  /** The `reduce` over a week's sessions: sessions that do not count leave
      the accumulator alone, the others tally their code in order. */
  function WeekCounters(ss: seq<Session>, start: string, moduleFilter: string, absenceFilter: string): SeriesPoint {
    TallyAll(CountedCodes(ss, moduleFilter, absenceFilter), start)
  }

  /** The counters of week `w` at position `idx`, with `__index` set last. */
  function WeeklyEntry(w: Week, idx: nat, moduleFilter: string, absenceFilter: string): SeriesPoint {
    var p := WeekCounters(w.sessions, w.weekStartISO, moduleFilter, absenceFilter);
    p.(rest := Put(p.rest, "__index", idx))
  }

  /** `buildWeeklySeries(snapshot, moduleFilter, absenceFilter)` */
  function BuildWeeklySeries(weeks: seq<Week>, moduleFilter: string, absenceFilter: string): (r: seq<SeriesPoint>)
    ensures |r| == |weeks|
    ensures forall i :: 0 <= i < |weeks| ==> Get(r[i].rest, "__index") == Some(i)
  {
    seq(|weeks|, i requires 0 <= i < |weeks| => WeeklyEntry(weeks[i], i, moduleFilter, absenceFilter))
  }

  // reference counts

  function CountCounted(ss: seq<Session>, moduleFilter: string, absenceFilter: string): nat {
    if |ss| == 0 then 0
    else CountCounted(ss[..|ss| - 1], moduleFilter, absenceFilter)
         + (if Counts(ss[|ss| - 1], moduleFilter, absenceFilter) then 1 else 0)
  }

  function CountCountedCode(ss: seq<Session>, moduleFilter: string, absenceFilter: string, c: string): nat {
    if |ss| == 0 then 0
    else
      var s := ss[|ss| - 1];
      CountCountedCode(ss[..|ss| - 1], moduleFilter, absenceFilter, c)
        + (if Counts(s, moduleFilter, absenceFilter) && CodeOf(s).value == c then 1 else 0)
  }

  /** The keys the entry itself uses. */
  predicate Reserved(k: string) { k == "label" || k == "total" || k == "__index" }

  /** No counted session has a code that collides with an entry's own key. */
  predicate NoReservedCode(ss: seq<Session>, moduleFilter: string, absenceFilter: string) {
    forall i :: 0 <= i < |ss| && Counts(ss[i], moduleFilter, absenceFilter) ==> !Reserved(CodeOf(ss[i]).value)
  }

  predicate NoReserved(codes: seq<string>) { forall i :: 0 <= i < |codes| ==> !Reserved(codes[i]) }

  /** Occurrences of `c` in `codes`. */
  function Occurrences(codes: seq<string>, c: string): nat {
    if |codes| == 0 then 0 else Occurrences(codes[..|codes| - 1], c) + (if codes[|codes| - 1] == c then 1 else 0)
  }

  /** The counted codes are one per counted session, each code as often as
      the sessions carrying it, and none reserved when no session's is. */
  lemma {:induction false} CountedCodesMeaning(ss: seq<Session>, moduleFilter: string, absenceFilter: string, c: string)
    ensures var codes := CountedCodes(ss, moduleFilter, absenceFilter);
      && |codes| == CountCounted(ss, moduleFilter, absenceFilter)
      && Occurrences(codes, c) == CountCountedCode(ss, moduleFilter, absenceFilter, c)
      && (NoReservedCode(ss, moduleFilter, absenceFilter) ==> NoReserved(codes))
  {
    if |ss| > 0 {
      var p := ss[..|ss| - 1];
      var s := ss[|ss| - 1];
      CountedCodesMeaning(p, moduleFilter, absenceFilter, c);
      var codes := CountedCodes(ss, moduleFilter, absenceFilter);
      var pc := CountedCodes(p, moduleFilter, absenceFilter);
      if Counts(s, moduleFilter, absenceFilter) {
        assert codes[..|codes| - 1] == pc;
      } else {
        assert codes == pc;
      }
      if NoReservedCode(ss, moduleFilter, absenceFilter) {
        assert NoReservedCode(p, moduleFilter, absenceFilter) by {
          forall i | 0 <= i < |p| && Counts(p[i], moduleFilter, absenceFilter)
            ensures !Reserved(CodeOf(p[i]).value) {
            assert p[i] == ss[i];
          }
        }
        assert Counts(s, moduleFilter, absenceFilter) ==> !Reserved(CodeOf(s).value) by {
          assert ss[|ss| - 1] == s;
        }
      }
    }
  }

  /** Without colliding codes, tallying keeps the label, counts every code
      in `total` and under its own key, adds no `__index`, and `total` is
      the sum of the counters. */
  lemma {:induction false} TallyAllMeaning(codes: seq<string>, start: string, c: string)
    requires NoReserved(codes)
    ensures var p := TallyAll(codes, start);
      && p.labelValue == JStr(start)
      && p.total == |codes|
      && UniqueKeys(p.rest)
      && GetOr(p.rest, c, 0) == Occurrences(codes, c)
      && !HasKey(p.rest, "__index")
      && SumBy(p.rest, NatValue) == p.total
  {
    if |codes| > 0 {
      var q := codes[..|codes| - 1];
      var last := codes[|codes| - 1];
      assert NoReserved(q) by {
        forall i | 0 <= i < |q| ensures !Reserved(q[i]) { assert q[i] == codes[i]; }
      }
      TallyAllMeaning(q, start, c);
      var p := TallyAll(q, start);
      assert !Reserved(last);
      BumpFacts(p.rest, last);
      assert GetOr(Bump(p.rest, last), "__index", 0) == 0;
      assert Get(Bump(p.rest, last), "__index") == Get(p.rest, "__index");
    }
  }

  /** Each week's entry: its label is the week's start, `__index` its
      position, each code's counter the number of counted sessions with that
      code, and `total` both the number of counted sessions and the sum of
      the counters before `__index`. */
  lemma WeeklySeriesMeaning(weeks: seq<Week>, moduleFilter: string, absenceFilter: string, i: nat, c: string)
    requires i < |weeks| && NoReservedCode(weeks[i].sessions, moduleFilter, absenceFilter)
    ensures var e := BuildWeeklySeries(weeks, moduleFilter, absenceFilter)[i];
      var ss := weeks[i].sessions;
      && e.labelValue == JStr(weeks[i].weekStartISO)
      && e.total == CountCounted(ss, moduleFilter, absenceFilter)
      && UniqueKeys(e.rest)
      && |e.rest| > 0 && e.rest[|e.rest| - 1] == ("__index", i)
      && (c != "__index" ==> GetOr(e.rest, c, 0) == CountCountedCode(ss, moduleFilter, absenceFilter, c))
      && SumBy(e.rest[..|e.rest| - 1], NatValue) == e.total
  {
    var w := weeks[i];
    var codes := CountedCodes(w.sessions, moduleFilter, absenceFilter);
    var p := TallyAll(codes, w.weekStartISO);
    CountedCodesMeaning(w.sessions, moduleFilter, absenceFilter, c);
    TallyAllMeaning(codes, w.weekStartISO, c);
    PutUnique(p.rest, "__index", i);
    PutAbsentAppends(p.rest, "__index", i);
  }

  /** `Put` of a new key appends it. */
  lemma {:induction false} PutAbsentAppends<V>(m: AList<V>, k: string, v: V)
    requires !HasKey(m, k)
    ensures Put(m, k, v) == m + [(k, v)]
  {
    if |m| > 0 {
      assert Keys(m) == [m[0].0] + Keys(m[1..]);
      PutAbsentAppends(m[1..], k, v);
    }
  }

  // ---- counting keys ----

  /** `m[k] = (m[k] || 0) + 1` for each key in turn. */
  function BumpAll(keys: seq<string>): AList<nat> {
    if |keys| == 0 then [] else Bump(BumpAll(keys[..|keys| - 1]), keys[|keys| - 1])
  }

  /** Each key's count is its number of occurrences, a key is present
      exactly when it occurs, and the counts add up to the number of keys. */
  lemma {:induction false} BumpAllMeaning(keys: seq<string>, k: string)
    ensures var m := BumpAll(keys);
      && UniqueKeys(m)
      && GetOr(m, k, 0) == Occurrences(keys, k)
      && (HasKey(m, k) <==> Occurrences(keys, k) > 0)
      && SumBy(m, NatValue) == |keys|
  {
    if |keys| > 0 {
      var q := keys[..|keys| - 1];
      var last := keys[|keys| - 1];
      BumpAllMeaning(q, k);
      var m := BumpAll(q);
      BumpFacts(m, last);
      if k != last {
        assert Get(Bump(m, last), k) == Get(m, k);
      }
    }
  }

  // ---- buildMonthlySeries ----

  datatype MonthTotal = MonthTotal(month: string, total: nat)

  /** `s.dateISO.slice(0, 7)`: the "yyyy-mm" prefix, or all of a shorter string. */
  function MonthOf(s: Session): (r: string)
    ensures |r| <= 7 && |r| <= |s.dateISO| && r == s.dateISO[..|r|]
  {
    if |s.dateISO| <= 7 then s.dateISO else s.dateISO[..7]
  }

  /** The months of the sessions the series counts, in order. */
  function CountedMonths(ss: seq<Session>, moduleFilter: string, absenceFilter: string): seq<string> {
    if |ss| == 0 then []
    else
      var s := ss[|ss| - 1];
      CountedMonths(ss[..|ss| - 1], moduleFilter, absenceFilter)
        + (if Counts(s, moduleFilter, absenceFilter) then [MonthOf(s)] else [])
  }

  /** Number of counted sessions in month `m`. */
  function CountMonth(ss: seq<Session>, moduleFilter: string, absenceFilter: string, m: string): nat {
    if |ss| == 0 then 0
    else
      var s := ss[|ss| - 1];
      CountMonth(ss[..|ss| - 1], moduleFilter, absenceFilter, m)
        + (if Counts(s, moduleFilter, absenceFilter) && MonthOf(s) == m then 1 else 0)
  }

  lemma {:induction false} CountedMonthsMeaning(ss: seq<Session>, moduleFilter: string, absenceFilter: string, m: string)
    ensures var months := CountedMonths(ss, moduleFilter, absenceFilter);
      && |months| == CountCounted(ss, moduleFilter, absenceFilter)
      && Occurrences(months, m) == CountMonth(ss, moduleFilter, absenceFilter, m)
  {
    if |ss| > 0 {
      var p := ss[..|ss| - 1];
      CountedMonthsMeaning(p, moduleFilter, absenceFilter, m);
      var months := CountedMonths(ss, moduleFilter, absenceFilter);
      var pm := CountedMonths(p, moduleFilter, absenceFilter);
      if Counts(ss[|ss| - 1], moduleFilter, absenceFilter) {
        assert months[..|months| - 1] == pm;
      } else {
        assert months == pm;
      }
    }
  }

  function MonthKey(e: (string, nat)): string { e.0 }

  function ToMonthTotals(entries: AList<nat>): (r: seq<MonthTotal>)
    ensures |r| == |entries|
    ensures forall i :: 0 <= i < |r| ==> r[i] == MonthTotal(entries[i].0, entries[i].1)
  {
    seq(|entries|, i requires 0 <= i < |entries| => MonthTotal(entries[i].0, entries[i].1))
  }

  /** `byMonth` before sorting. */
  function ByMonth(weeks: seq<Week>, moduleFilter: string, absenceFilter: string): AList<nat> {
    BumpAll(CountedMonths(AllSessions(weeks), moduleFilter, absenceFilter))
  }

  /** `buildMonthlySeries(snapshot, moduleFilter, absenceFilter)`, with
      `localeCompare` taken as code-unit order. */
  function BuildMonthlySeries(weeks: seq<Week>, moduleFilter: string, absenceFilter: string): (r: seq<MonthTotal>)
    ensures |r| == |ByMonth(weeks, moduleFilter, absenceFilter)|
    ensures forall i, j :: 0 <= i < j < |r| ==> StringLess(r[i].month, r[j].month)
  {
    var byMonth := ByMonth(weeks, moduleFilter, absenceFilter);
    var sorted := SortAscByString(byMonth, MonthKey);
    var r := ToMonthTotals(sorted);
    ByMonthMeaning(weeks, moduleFilter, absenceFilter, "");
    UniqueKeysPermutation(byMonth, sorted);
    assert forall i, j :: 0 <= i < j < |r| ==> StringLess(r[i].month, r[j].month) by {
      forall i, j | 0 <= i < j < |r| ensures StringLess(r[i].month, r[j].month) {
        SortedAscPairs(sorted, MonthKey, i, j);
        assert sorted[i].0 != sorted[j].0;
      }
    }
    r
  }

  function SumTotals(r: seq<MonthTotal>): int {
    if |r| == 0 then 0 else r[0].total + SumTotals(r[1..])
  }

  lemma {:induction false} SumTotalsOf(entries: AList<nat>)
    ensures SumTotals(ToMonthTotals(entries)) == SumBy(entries, NatValue)
  {
    if |entries| > 0 {
      SumTotalsOf(entries[1..]);
      assert ToMonthTotals(entries)[1..] == ToMonthTotals(entries[1..]);
    }
  }

  /** `byMonth` holds every month with a counted session, with that count. */
  lemma ByMonthMeaning(weeks: seq<Week>, moduleFilter: string, absenceFilter: string, m: string)
    ensures var byMonth := ByMonth(weeks, moduleFilter, absenceFilter);
      var ss := AllSessions(weeks);
      && UniqueKeys(byMonth)
      && GetOr(byMonth, m, 0) == CountMonth(ss, moduleFilter, absenceFilter, m)
      && (HasKey(byMonth, m) <==> CountMonth(ss, moduleFilter, absenceFilter, m) > 0)
      && SumBy(byMonth, NatValue) == CountCounted(ss, moduleFilter, absenceFilter)
  {
    var months := CountedMonths(AllSessions(weeks), moduleFilter, absenceFilter);
    CountedMonthsMeaning(AllSessions(weeks), moduleFilter, absenceFilter, m);
    BumpAllMeaning(months, m);
  }

  /** Each listed month carries its number of counted sessions, never zero. */
  lemma MonthlyTotals(weeks: seq<Week>, moduleFilter: string, absenceFilter: string, i: int)
    requires 0 <= i < |BuildMonthlySeries(weeks, moduleFilter, absenceFilter)|
    ensures var p := BuildMonthlySeries(weeks, moduleFilter, absenceFilter)[i];
      p.total > 0 && p.total == CountMonth(AllSessions(weeks), moduleFilter, absenceFilter, p.month)
  {
    var byMonth := ByMonth(weeks, moduleFilter, absenceFilter);
    var sorted := SortAscByString(byMonth, MonthKey);
    assert sorted[i] in multiset(byMonth);
    var x :| 0 <= x < |byMonth| && byMonth[x] == sorted[i];
    ByMonthMeaning(weeks, moduleFilter, absenceFilter, sorted[i].0);
    GetEntry(byMonth, x);
  }

  /** A month is listed exactly when some counted session falls in it. */
  lemma MonthlyCovers(weeks: seq<Week>, moduleFilter: string, absenceFilter: string, m: string)
    ensures var r := BuildMonthlySeries(weeks, moduleFilter, absenceFilter);
      CountMonth(AllSessions(weeks), moduleFilter, absenceFilter, m) > 0 <==> exists i :: 0 <= i < |r| && r[i].month == m
  {
    var byMonth := ByMonth(weeks, moduleFilter, absenceFilter);
    var sorted := SortAscByString(byMonth, MonthKey);
    var r := ToMonthTotals(sorted);
    ByMonthMeaning(weeks, moduleFilter, absenceFilter, m);
    if CountMonth(AllSessions(weeks), moduleFilter, absenceFilter, m) > 0 {
      var e := (m, Get(byMonth, m).value);
      assert e in multiset(sorted);
      var x :| 0 <= x < |sorted| && sorted[x] == e;
      assert r[x].month == m;
    }
    if i :| 0 <= i < |r| && r[i].month == m {
      MonthlyTotals(weeks, moduleFilter, absenceFilter, i);
    }
  }

  /** The monthly totals add up to the number of counted sessions. */
  lemma MonthlySum(weeks: seq<Week>, moduleFilter: string, absenceFilter: string)
    ensures SumTotals(BuildMonthlySeries(weeks, moduleFilter, absenceFilter))
      == CountCounted(AllSessions(weeks), moduleFilter, absenceFilter)
  {
    var byMonth := ByMonth(weeks, moduleFilter, absenceFilter);
    var sorted := SortAscByString(byMonth, MonthKey);
    ByMonthMeaning(weeks, moduleFilter, absenceFilter, "");
    SumByPermutation(byMonth, sorted, NatValue);
    SumTotalsOf(sorted);
  }

  // ---- buildKpis ----

  /** Thirty days in milliseconds. */
  const ThirtyDaysMs: int := 30 * 24 * 3600 * 1000

  datatype TopModule = TopModule(key: string, count: nat)
  datatype Kpis = Kpis(totalAbsences: nat, last30: nat, prev30: nat, delta: int, topModules: seq<TopModule>)

  /** `s.title || "?"` */
  function KpiModule(s: Session): string {
    if s.title.Some? && s.title.value != "" then s.title.value else "?"
  }

  /** `new Date(s.dateISO + "T00:00:00Z") >= iso30`, with `parseMs` the
      date parser; an invalid date (None) compares false. */
  predicate InWindow(s: Session, cutoff: int, parseMs: string -> Option<int>) {
    var t := parseMs(s.dateISO + "T00:00:00Z");
    t.Some? && t.value >= cutoff
  }

  datatype KpiAcc = KpiAcc(total: nat, last30: nat, prev30: nat, moduleCounts: AList<nat>)

  /** The single pass of `buildKpis` over the sessions with an absence code. */
  function KpiFold(ss: seq<Session>, cutoff: int, parseMs: string -> Option<int>): (r: KpiAcc)
    ensures r.total == r.last30 + r.prev30
  {
    if |ss| == 0 then KpiAcc(0, 0, 0, [])
    else
      var a := KpiFold(ss[..|ss| - 1], cutoff, parseMs);
      var s := ss[|ss| - 1];
      if CodeOf(s).None? then a
      else if InWindow(s, cutoff, parseMs) then
        KpiAcc(a.total + 1, a.last30 + 1, a.prev30, Bump(a.moduleCounts, KpiModule(s)))
      else
        KpiAcc(a.total + 1, a.last30, a.prev30 + 1, Bump(a.moduleCounts, KpiModule(s)))
  }

  /** The module of every session with an absence code, in order. */
  function KpiModules(ss: seq<Session>): seq<string> {
    if |ss| == 0 then []
    else
      var s := ss[|ss| - 1];
      KpiModules(ss[..|ss| - 1]) + (if CodeOf(s).Some? then [KpiModule(s)] else [])
  }

  /** Number of sessions with an absence code dated inside the window. */
  function CountRecent(ss: seq<Session>, cutoff: int, parseMs: string -> Option<int>): nat {
    if |ss| == 0 then 0
    else
      var s := ss[|ss| - 1];
      CountRecent(ss[..|ss| - 1], cutoff, parseMs) + (if CodeOf(s).Some? && InWindow(s, cutoff, parseMs) then 1 else 0)
  }

  /** Number of sessions with an absence code attributed to module `k`. */
  function CountModule(ss: seq<Session>, k: string): nat {
    if |ss| == 0 then 0
    else
      var s := ss[|ss| - 1];
      CountModule(ss[..|ss| - 1], k) + (if CodeOf(s).Some? && KpiModule(s) == k then 1 else 0)
  }

  lemma {:induction false} KpiFoldMeaning(ss: seq<Session>, cutoff: int, parseMs: string -> Option<int>, k: string)
    ensures var a := KpiFold(ss, cutoff, parseMs);
      && a.total == CountCounted(ss, "all", "all")
      && a.last30 == CountRecent(ss, cutoff, parseMs)
      && a.moduleCounts == BumpAll(KpiModules(ss))
      && Occurrences(KpiModules(ss), k) == CountModule(ss, k)
  {
    if |ss| > 0 {
      var p := ss[..|ss| - 1];
      KpiFoldMeaning(p, cutoff, parseMs, k);
      var mods := KpiModules(ss);
      if CodeOf(ss[|ss| - 1]).Some? {
        assert mods[..|mods| - 1] == KpiModules(p);
      } else {
        assert mods == KpiModules(p);
      }
    }
  }

  function CountAsReal(e: (string, nat)): real { e.1 as real }

  /** `.slice(0, 3).map(([key, count]) => ({ key, count }))` */
  function TopOf(sorted: AList<nat>): (r: seq<TopModule>)
    ensures |r| == if |sorted| < 3 then |sorted| else 3
    ensures forall i :: 0 <= i < |r| ==> r[i] == TopModule(sorted[i].0, sorted[i].1)
  {
    var n := if |sorted| < 3 then |sorted| else 3;
    seq(n, i requires 0 <= i < n => TopModule(sorted[i].0, sorted[i].1))
  }

  /** `buildKpis(snapshot)`, with the clock reading `nowMs` and the date
      parser `parseMs` as parameters. */
  function BuildKpis(weeks: seq<Week>, nowMs: int, parseMs: string -> Option<int>): (r: Kpis)
    ensures r.totalAbsences == r.last30 + r.prev30
    ensures r.delta == if r.last30 > r.prev30 then r.last30 - r.prev30 else 0
    ensures |r.topModules| <= 3
    ensures forall i :: 0 < i < |r.topModules| ==> r.topModules[i - 1].count >= r.topModules[i].count
  {
    var a := KpiFold(AllSessions(weeks), nowMs - ThirtyDaysMs, parseMs);
    var sorted := SortDesc(a.moduleCounts, CountAsReal);
    var top := TopOf(sorted);
    assert forall i :: 0 < i < |top| ==> CountAsReal(sorted[i - 1]) >= CountAsReal(sorted[i]);
    Kpis(a.total, a.last30, a.prev30, a.last30 - (if a.prev30 < a.last30 then a.prev30 else a.last30), top)
  }

  /** The totals count the sessions with an absence code, and the recent
      ones those dated no earlier than thirty days before `nowMs`. */
  lemma KpisCounts(weeks: seq<Week>, nowMs: int, parseMs: string -> Option<int>)
    ensures var r := BuildKpis(weeks, nowMs, parseMs);
      var ss := AllSessions(weeks);
      && r.totalAbsences == CountCounted(ss, "all", "all")
      && r.last30 == CountRecent(ss, nowMs - ThirtyDaysMs, parseMs)
  {
    KpiFoldMeaning(AllSessions(weeks), nowMs - ThirtyDaysMs, parseMs, "");
  }

  /** The leading modules are distinct, each listed with its count of
      absences, never zero. */
  lemma TopModulesCounts(weeks: seq<Week>, nowMs: int, parseMs: string -> Option<int>)
    ensures var top := BuildKpis(weeks, nowMs, parseMs).topModules;
      var ss := AllSessions(weeks);
      && (forall i :: 0 <= i < |top| ==> top[i].count > 0 && top[i].count == CountModule(ss, top[i].key))
      && (forall i, j :: 0 <= i < j < |top| ==> top[i].key != top[j].key)
  {
    var ss := AllSessions(weeks);
    var cutoff := nowMs - ThirtyDaysMs;
    var mc := KpiFold(ss, cutoff, parseMs).moduleCounts;
    var sorted := SortDesc(mc, CountAsReal);
    var top := TopOf(sorted);
    assert UniqueKeys(sorted) by {
      KpiFoldMeaning(ss, cutoff, parseMs, "");
      BumpAllMeaning(KpiModules(ss), "");
      UniqueKeysPermutation(mc, sorted);
    }
    forall i | 0 <= i < |top| ensures top[i].count > 0 && top[i].count == CountModule(ss, top[i].key) {
      assert sorted[i] in multiset(mc);
      ModuleCountEntry(ss, cutoff, parseMs, sorted[i]);
    }
  }

  /** Every module count of the fold is the module's number of absences,
      never zero. */
  lemma ModuleCountEntry(ss: seq<Session>, cutoff: int, parseMs: string -> Option<int>, e: (string, nat))
    requires e in KpiFold(ss, cutoff, parseMs).moduleCounts
    ensures e.1 > 0 && e.1 == CountModule(ss, e.0)
  {
    var mc := KpiFold(ss, cutoff, parseMs).moduleCounts;
    KpiFoldMeaning(ss, cutoff, parseMs, e.0);
    BumpAllMeaning(KpiModules(ss), e.0);
    var x :| 0 <= x < |mc| && mc[x] == e;
    GetEntry(mc, x);
  }

  /** No leading module has key `k`. */
  predicate Misses(top: seq<TopModule>, k: string) {
    forall i :: 0 <= i < |top| ==> top[i].key != k
  }

  /** An entry missing from the first three sits at position three or later. */
  lemma TopOfMisses(sorted: AList<nat>, k: string, x: int)
    requires 0 <= x < |sorted| && sorted[x].0 == k
    requires Misses(TopOf(sorted), k)
    ensures x >= 3 && |TopOf(sorted)| == 3
  {
    assert x >= |TopOf(sorted)|;
  }

  /** Past the first three, a sorted entry counts no more than the third. */
  lemma TopOfThird(sorted: AList<nat>, x: int)
    requires SortedDesc(sorted, CountAsReal)
    requires 3 <= x < |sorted|
    ensures sorted[x].1 <= TopOf(sorted)[2].count
  {
    SortedDescPairs(sorted, CountAsReal, 2, x);
  }

  /** A sorted entry missing from the first three counts no more than the third. */
  lemma TopOfSorted(sorted: AList<nat>, k: string, v: nat)
    requires SortedDesc(sorted, CountAsReal)
    requires (k, v) in sorted
    requires Misses(TopOf(sorted), k)
    ensures |TopOf(sorted)| == 3 && v <= TopOf(sorted)[2].count
  {
    var x :| 0 <= x < |sorted| && sorted[x] == (k, v);
    TopOfMisses(sorted, k, x);
    TopOfThird(sorted, x);
  }

  /** A counter left out of the first three after sorting has no larger
      count than the third. */
  lemma TopOfDominates(mc: AList<nat>, k: string, v: nat)
    requires (k, v) in mc
    requires Misses(TopOf(SortDesc(mc, CountAsReal)), k)
    ensures var top := TopOf(SortDesc(mc, CountAsReal));
      |top| == 3 && v <= top[2].count
  {
    assert (k, v) in multiset(SortDesc(mc, CountAsReal));
    TopOfSorted(SortDesc(mc, CountAsReal), k, v);
  }

  /** A module with absences is left out of the leading ones only when
      three are listed, and then it has no more absences than the third. */
  lemma TopModulesDominate(weeks: seq<Week>, nowMs: int, parseMs: string -> Option<int>, k: string)
    requires CountModule(AllSessions(weeks), k) > 0
    requires Misses(BuildKpis(weeks, nowMs, parseMs).topModules, k)
    ensures var top := BuildKpis(weeks, nowMs, parseMs).topModules;
      |top| == 3 && CountModule(AllSessions(weeks), k) <= top[2].count
  {
    var ss := AllSessions(weeks);
    var cutoff := nowMs - ThirtyDaysMs;
    var mods := KpiModules(ss);
    var mc := KpiFold(ss, cutoff, parseMs).moduleCounts;
    KpiFoldMeaning(ss, cutoff, parseMs, k);
    BumpAllMeaning(mods, k);
    TopOfDominates(mc, k, Get(mc, k).value);
  }

  // ---- buildSelectedWeek ----

  /** The session filter of `buildSelectedWeek`: the title must equal the
      module filter and the absence code the absence filter, "all" switching
      either test off. A `null` title or code never equals a filter. */
  predicate Keeps(s: Session, moduleFilter: string, absenceFilter: string) {
    (moduleFilter == "all" || s.title == Some(moduleFilter))
    && (absenceFilter == "all" || ExtractAbsenceCode(s.cssClass) == Some(absenceFilter))
  }

  function KeepsFn(moduleFilter: string, absenceFilter: string): Session -> bool {
    s => Keeps(s, moduleFilter, absenceFilter)
  }

  /** `selectedWeekIdx ?? (weeks.length ? weeks.length - 1 : null)` */
  function DefaultIndex(n: nat, selected: Option<int>): (r: Option<int>)
    ensures selected.Some? ==> r == selected
    ensures selected.None? ==> (r.Some? <==> n > 0) && (r.Some? ==> r.value == n - 1)
  {
    match selected
    case Some(i) => Some(i)
    case None => if n > 0 then Some(n - 1) else None
  }

  /** `buildSelectedWeek(snapshot, selectedWeekIdx, moduleFilter, absenceFilter)` */
  function BuildSelectedWeek(weeks: seq<Week>, selected: Option<int>, moduleFilter: string, absenceFilter: string): (r: Option<Week>)
    ensures var idx := DefaultIndex(|weeks|, selected);
      r.Some? <==> idx.Some? && 0 <= idx.value < |weeks|
    ensures r.Some? ==>
      var w := weeks[DefaultIndex(|weeks|, selected).value];
      && r.value.weekStartISO == w.weekStartISO
      && r.value.weekEndISO == w.weekEndISO
      && r.value.daysISO == w.daysISO
      && (forall s :: s in r.value.sessions <==> s in w.sessions && Keeps(s, moduleFilter, absenceFilter))
  {
    match DefaultIndex(|weeks|, selected)
    case None => None
    case Some(idx) =>
      if idx < 0 || idx >= |weeks| then None
      else
        var w := weeks[idx];
        Some(w.(sessions := Filter(w.sessions, KeepsFn(moduleFilter, absenceFilter))))
  }

  /** The selected week's sessions keep their order, and with both filters
      "all" they are the week's sessions. */
  lemma SelectedWeekSessions(weeks: seq<Week>, selected: Option<int>, moduleFilter: string, absenceFilter: string)
    requires BuildSelectedWeek(weeks, selected, moduleFilter, absenceFilter).Some?
    ensures var r := BuildSelectedWeek(weeks, selected, moduleFilter, absenceFilter).value;
      var w := weeks[DefaultIndex(|weeks|, selected).value];
      && IsSubsequence(r.sessions, w.sessions)
      && (moduleFilter == "all" && absenceFilter == "all" ==> r == w)
  {
    var w := weeks[DefaultIndex(|weeks|, selected).value];
    FilterIsSubsequence(w.sessions, KeepsFn(moduleFilter, absenceFilter));
    if moduleFilter == "all" && absenceFilter == "all" {
      FilterKeepsAll(w.sessions, KeepsFn(moduleFilter, absenceFilter));
    }
  }
}
