/** `aggregateStats` of `lib/http/scraper.ts`: the per-module class and
    absence counts of all the sessions of all the weeks. */
module Aggregation {
  import opened Wrappers
  import opened JsString
  import opened Assoc
  import opened Calculations
  import opened SnapshotModel

  /** The number of sessions of the given weeks. */
  function SessionCount(weeks: seq<Week>): nat {
    if |weeks| == 0 then 0 else |weeks[0].sessions| + SessionCount(weeks[1..])
  }

  /** `s` occurs in `r` starting at position `k`. */
  predicate SitsAt(r: seq<Session>, s: seq<Session>, k: nat) {
    k + |s| <= |r| && r[k..k + |s|] == s
  }

  ghost predicate InSomeWeek(weeks: seq<Week>, s: Session) {
    exists i :: 0 <= i < |weeks| && s in weeks[i].sessions
  }

  /** The sessions of all weeks, week by week: each week's sessions, in
      order, right after those of the weeks before it. */
  function AllSessions(weeks: seq<Week>): (r: seq<Session>)
    ensures |r| == SessionCount(weeks)
    ensures forall i :: 0 <= i < |weeks| ==> SitsAt(r, weeks[i].sessions, SessionCount(weeks[..i]))
    ensures forall s :: s in r <==> InSomeWeek(weeks, s)
  {
    if |weeks| == 0 then []
    else
      var w := weeks[..|weeks| - 1];
      var x := weeks[|weeks| - 1];
      assert weeks == w + [x];
      LayoutSnoc(w, x, AllSessions(w));
      AllSessions(w) + x.sessions
  }

  lemma {:induction false} SessionCountSnoc(w: seq<Week>, x: Week)
    ensures SessionCount(w + [x]) == SessionCount(w) + |x.sessions|
  {
    if |w| == 0 {
      assert (w + [x])[1..] == [];
    } else {
      assert (w + [x])[1..] == w[1..] + [x];
      SessionCountSnoc(w[1..], x);
    }
  }

  lemma SitsAtExtend(r: seq<Session>, t: seq<Session>, s: seq<Session>, k: nat)
    requires SitsAt(r, s, k)
    ensures SitsAt(r + t, s, k)
  {
    assert (r + t)[k..k + |s|] == r[k..k + |s|];
  }

  /** Appending one more week keeps the layout of `AllSessions`. */
  lemma LayoutSnoc(w: seq<Week>, x: Week, rest: seq<Session>)
    requires |rest| == SessionCount(w)
    requires forall i :: 0 <= i < |w| ==> SitsAt(rest, w[i].sessions, SessionCount(w[..i]))
    requires forall s :: s in rest <==> InSomeWeek(w, s)
    ensures |rest + x.sessions| == SessionCount(w + [x])
    ensures forall i :: 0 <= i < |w + [x]| ==>
      SitsAt(rest + x.sessions, (w + [x])[i].sessions, SessionCount((w + [x])[..i]))
    ensures forall s :: s in rest + x.sessions <==> InSomeWeek(w + [x], s)
  {
    SessionCountSnoc(w, x);
    forall i | 0 <= i < |w + [x]|
      ensures SitsAt(rest + x.sessions, (w + [x])[i].sessions, SessionCount((w + [x])[..i]))
    {
      PositionSnoc(w, x, rest, i);
    }
    forall s
      ensures s in rest + x.sessions <==> InSomeWeek(w + [x], s)
    {
      MemberSnoc(w, x, rest, s);
    }
  }

  lemma PositionSnoc(w: seq<Week>, x: Week, rest: seq<Session>, i: nat)
    requires |rest| == SessionCount(w)
    requires forall i :: 0 <= i < |w| ==> SitsAt(rest, w[i].sessions, SessionCount(w[..i]))
    requires i < |w + [x]|
    ensures SitsAt(rest + x.sessions, (w + [x])[i].sessions, SessionCount((w + [x])[..i]))
  {
    var ws := w + [x];
    if i < |w| {
      assert ws[..i] == w[..i] && ws[i] == w[i];
      SitsAtExtend(rest, x.sessions, w[i].sessions, SessionCount(w[..i]));
    } else {
      assert ws[..i] == w && ws[i] == x;
      assert (rest + x.sessions)[|rest|..|rest| + |x.sessions|] == x.sessions;
    }
  }

  lemma MemberSnoc(w: seq<Week>, x: Week, rest: seq<Session>, s: Session)
    requires s in rest <==> InSomeWeek(w, s)
    ensures s in rest + x.sessions <==> InSomeWeek(w + [x], s)
  {
    var ws := w + [x];
    if s in rest {
      var i :| 0 <= i < |w| && s in w[i].sessions;
      assert ws[i] == w[i];
    } else if s in x.sessions {
      assert ws[|w|] == x;
    }
    if InSomeWeek(ws, s) {
      var i :| 0 <= i < |ws| && s in ws[i].sessions;
      if i < |w| {
        assert ws[i] == w[i];
        assert InSomeWeek(w, s);
      } else {
        assert ws[i] == x;
      }
    }
  }

  /** A session counts only when its title is present and non-empty. */
  predicate Titled(s: Session) { s.title.Some? && s.title.value != "" }

  function ModuleKey(s: Session): string requires Titled(s) { Trim(s.title.value) }

  /** The absence code a session contributes: `extractAbsenceCode` of its
      class, when that is a non-empty string. */
  function CodeOf(s: Session): (r: Option<string>)
    ensures r.Some? ==> r.value != "" && ExtractAbsenceCode(s.cssClass) == r
    ensures r.None? ==> ExtractAbsenceCode(s.cssClass).None? || ExtractAbsenceCode(s.cssClass) == Some("")
  {
    match ExtractAbsenceCode(s.cssClass)
    case Some(c) => if c != "" then Some(c) else None
    case None => None
  }

  const Empty: Aggregated := Aggregated([], [])

  /** `m[c] = (m[c] || 0) + 1` */
  function Bump(m: AList<nat>, c: string): AList<nat> {
    Put(m, c, Succ(GetOr(m, c, 0)))
  }

  function Succ(n: nat): nat { n + 1 }

  function NatValue(n: nat): int { n }

  /** `Bump` adds one under `c`, nothing elsewhere, and one to the sum. */
  lemma BumpGet(m: AList<nat>, c: string)
    ensures forall c' :: GetOr(Bump(m, c), c', 0) == GetOr(m, c', 0) + (if c' == c then 1 else 0)
  {
  }

  lemma BumpFacts(m: AList<nat>, c: string)
    requires UniqueKeys(m)
    ensures UniqueKeys(Bump(m, c))
    ensures forall c' :: GetOr(Bump(m, c), c', 0) == GetOr(m, c', 0) + (if c' == c then 1 else 0)
    ensures SumBy(Bump(m, c), NatValue) == SumBy(m, NatValue) + 1
  {
    BumpGet(m, c);
    PutUnique(m, c, Succ(GetOr(m, c, 0)));
    SumByPut(m, c, Succ(GetOr(m, c, 0)), NatValue);
  }

  /** `modules[key] ||= { classesGiven: 0, absenceCounts: {} }` */
  function EntryOf(agg: Aggregated, key: string): ModuleStats {
    GetOr(agg.modules, key, ModuleStats(0, []))
  }

  /** The module entry after one more session with absence code `code`. */
  function Counted(entry: ModuleStats, code: Option<string>): ModuleStats {
    ModuleStats(Succ(entry.classesGiven),
      match code case Some(c) => Bump(entry.absenceCounts, c) case None => entry.absenceCounts)
  }

  function TotalsAfter(totals: AList<nat>, code: Option<string>): AList<nat> {
    match code case Some(c) => Bump(totals, c) case None => totals
  }

  /** One iteration of the `forEach`. */
  function AddSession(agg: Aggregated, s: Session): Aggregated {
    if !Titled(s) then agg else AddEntry(agg, ModuleKey(s), CodeOf(s))
  }

  /** A titled session keyed `key` with absence code `code`. */
  function AddEntry(agg: Aggregated, key: string, code: Option<string>): Aggregated {
    Aggregated(Put(agg.modules, key, Counted(EntryOf(agg, key), code)), TotalsAfter(agg.absenceTotals, code))
  }

  function AggregateSessions(ss: seq<Session>): Aggregated {
    if |ss| == 0 then Empty else AddSession(AggregateSessions(ss[..|ss| - 1]), ss[|ss| - 1])
  }

  /** `aggregateStats(weeks)` */
  function AggregateStats(weeks: seq<Week>): (r: Aggregated)
    ensures Wellformed(r)
  {
    AggregateWellformed(AllSessions(weeks));
    AggregateSessions(AllSessions(weeks))
  }

  // ---- reference counts ----

  /** Number of titled sessions keyed `k`. */
  function CountKey(ss: seq<Session>, k: string): nat {
    if |ss| == 0 then 0
    else CountKey(ss[..|ss| - 1], k) + (if Titled(ss[|ss| - 1]) && ModuleKey(ss[|ss| - 1]) == k then 1 else 0)
  }

  /** Number of titled sessions keyed `k` with absence code `c`. */
  function CountKeyCode(ss: seq<Session>, k: string, c: string): nat {
    if |ss| == 0 then 0
    else
      var s := ss[|ss| - 1];
      CountKeyCode(ss[..|ss| - 1], k, c) + (if Titled(s) && ModuleKey(s) == k && CodeOf(s) == Some(c) then 1 else 0)
  }

  /** Number of titled sessions with absence code `c`, whatever the module. */
  function CountCode(ss: seq<Session>, c: string): nat {
    if |ss| == 0 then 0
    else
      var s := ss[|ss| - 1];
      CountCode(ss[..|ss| - 1], c) + (if Titled(s) && CodeOf(s) == Some(c) then 1 else 0)
  }

  // ---- invariants ----

  function CountOf(m: ModuleStats, c: string): int { GetOr(m.absenceCounts, c, 0) }

  /** Sum of a module's absence counts. */
  function CountTotal(m: ModuleStats): int { SumBy(m.absenceCounts, NatValue) }

  /** Count of code `c` in a module, as a function value for `SumBy`. */
  function CountOfFn(c: string): ModuleStats -> int { m => CountOf(m, c) }

  predicate ModuleWellformed(m: ModuleStats) {
    UniqueKeys(m.absenceCounts) && CountTotal(m) <= m.classesGiven
  }

  /** Keys are unique, each module has no more absences than classes, and
      each total is the sum over modules of that code's count. */
  ghost predicate Wellformed(agg: Aggregated) {
    UniqueKeys(agg.modules) && UniqueKeys(agg.absenceTotals)
    && (forall i :: 0 <= i < |agg.modules| ==> ModuleWellformed(agg.modules[i].1))
    && forall c :: GetOr(agg.absenceTotals, c, 0) == SumBy(agg.modules, CountOfFn(c))
  }

  lemma WellformedGet(agg: Aggregated, k: string)
    requires UniqueKeys(agg.modules) && forall i :: 0 <= i < |agg.modules| ==> ModuleWellformed(agg.modules[i].1)
    ensures Get(agg.modules, k).Some? ==> ModuleWellformed(Get(agg.modules, k).value)
  {
    if Get(agg.modules, k).Some? {
      var i :| 0 <= i < |agg.modules| && agg.modules[i] == (k, Get(agg.modules, k).value);
    }
  }

  /** Every module of a `Put` result is the new value or an old one. */
  lemma PutModulesWellformed(ms: AList<ModuleStats>, k: string, v: ModuleStats)
    requires forall i :: 0 <= i < |ms| ==> ModuleWellformed(ms[i].1)
    requires ModuleWellformed(v)
    ensures forall i :: 0 <= i < |Put(ms, k, v)| ==> ModuleWellformed(Put(ms, k, v)[i].1)
  {
    if |ms| > 0 && ms[0].0 != k {
      PutModulesWellformed(ms[1..], k, v);
    }
  }

  /** The totals equation survives a session that changes module `key` to
      `v` and total `c` by `dt`, when `v`'s count of each code differs from
      the old entry's by exactly the same amount. */
  lemma TotalsStep(ms: AList<ModuleStats>, totals: AList<nat>, key: string, entry: ModuleStats, v: ModuleStats, totals': AList<nat>)
    requires UniqueKeys(ms)
    requires forall c :: GetOr(totals, c, 0) == SumBy(ms, CountOfFn(c))
    requires entry == GetOr(ms, key, ModuleStats(0, []))
    requires forall c :: GetOr(totals', c, 0) as int - GetOr(totals, c, 0) as int == CountOf(v, c) - CountOf(entry, c)
    ensures forall c :: GetOr(totals', c, 0) == SumBy(Put(ms, key, v), CountOfFn(c))
  {
    forall c ensures GetOr(totals', c, 0) == SumBy(Put(ms, key, v), CountOfFn(c)) {
      SumByPut(ms, key, v, CountOfFn(c));
      if !HasKey(ms, key) {
        assert CountOf(entry, c) == 0;
      }
    }
  }

  lemma CountedCounts(entry: ModuleStats, code: Option<string>)
    ensures Counted(entry, code).classesGiven == entry.classesGiven + 1
    ensures forall c :: CountOf(Counted(entry, code), c) == CountOf(entry, c) + (if code == Some(c) then 1 else 0)
  {
    if code.Some? {
      BumpGet(entry.absenceCounts, code.value);
    }
  }

  lemma TotalsAfterCounts(totals: AList<nat>, code: Option<string>)
    ensures forall c :: GetOr(TotalsAfter(totals, code), c, 0) == GetOr(totals, c, 0) + (if code == Some(c) then 1 else 0)
  {
    if code.Some? {
      BumpGet(totals, code.value);
    }
  }

  lemma CountedFacts(entry: ModuleStats, code: Option<string>)
    requires ModuleWellformed(entry)
    ensures ModuleWellformed(Counted(entry, code))
    ensures forall c :: CountOf(Counted(entry, code), c) == CountOf(entry, c) + (if code == Some(c) then 1 else 0)
  {
    if code.Some? {
      BumpFacts(entry.absenceCounts, code.value);
    }
  }

  lemma TotalsAfterFacts(totals: AList<nat>, code: Option<string>)
    requires UniqueKeys(totals)
    ensures UniqueKeys(TotalsAfter(totals, code))
    ensures forall c :: GetOr(TotalsAfter(totals, code), c, 0) == GetOr(totals, c, 0) + (if code == Some(c) then 1 else 0)
  {
    if code.Some? {
      BumpFacts(totals, code.value);
    }
  }

  lemma AddEntryWellformed(agg: Aggregated, key: string, code: Option<string>)
    requires Wellformed(agg)
    ensures Wellformed(AddEntry(agg, key, code))
  {
    var entry := EntryOf(agg, key);
    var v := Counted(entry, code);
    WellformedGet(agg, key);
    CountedFacts(entry, code);
    TotalsAfterFacts(agg.absenceTotals, code);
    PutUnique(agg.modules, key, v);
    PutModulesWellformed(agg.modules, key, v);
    TotalsStep(agg.modules, agg.absenceTotals, key, entry, v, TotalsAfter(agg.absenceTotals, code));
  }

  lemma AddSessionWellformed(agg: Aggregated, s: Session)
    requires Wellformed(agg)
    ensures Wellformed(AddSession(agg, s))
  {
    if Titled(s) {
      AddEntryWellformed(agg, ModuleKey(s), CodeOf(s));
    }
  }

  lemma {:induction false} AggregateWellformed(ss: seq<Session>)
    ensures Wellformed(AggregateSessions(ss))
  {
    if |ss| > 0 {
      AggregateWellformed(ss[..|ss| - 1]);
      AddSessionWellformed(AggregateSessions(ss[..|ss| - 1]), ss[|ss| - 1]);
    }
  }

  // ---- what the counts mean ----

  /** What one session adds: a key for its module, one class to that
      module, and one to its code's count and total. */
  lemma AddEntryCounts(agg: Aggregated, key: string, code: Option<string>, k: string, c: string)
    ensures HasKey(AddEntry(agg, key, code).modules, k) <==> HasKey(agg.modules, k) || key == k
    ensures EntryOf(AddEntry(agg, key, code), k).classesGiven == EntryOf(agg, k).classesGiven + (if key == k then 1 else 0)
    ensures CountOf(EntryOf(AddEntry(agg, key, code), k), c)
            == CountOf(EntryOf(agg, k), c) + (if key == k && code == Some(c) then 1 else 0)
    ensures GetOr(AddEntry(agg, key, code).absenceTotals, c, 0)
            == GetOr(agg.absenceTotals, c, 0) + (if code == Some(c) then 1 else 0)
  {
    CountedCounts(EntryOf(agg, key), code);
    TotalsAfterCounts(agg.absenceTotals, code);
  }

  /** Module keys are exactly the trimmed titles of the titled sessions;
      each module's `classesGiven` is its number of sessions, absent or
      not, and each count / total is the number of sessions with that code. */
  lemma {:induction false} AggregateCounts(ss: seq<Session>, k: string, c: string)
    ensures HasKey(AggregateSessions(ss).modules, k) <==> CountKey(ss, k) > 0
    ensures EntryOf(AggregateSessions(ss), k).classesGiven == CountKey(ss, k)
    ensures CountOf(EntryOf(AggregateSessions(ss), k), c) == CountKeyCode(ss, k, c)
    ensures GetOr(AggregateSessions(ss).absenceTotals, c, 0) == CountCode(ss, c)
  {
    if |ss| > 0 {
      AggregateCounts(ss[..|ss| - 1], k, c);
      var s := ss[|ss| - 1];
      if Titled(s) {
        AddEntryCounts(AggregateSessions(ss[..|ss| - 1]), ModuleKey(s), CodeOf(s), k, c);
      }
    }
  }

  lemma {:induction false} CountKeyCodeBound(ss: seq<Session>, k: string, c: string)
    ensures CountKeyCode(ss, k, c) <= CountKey(ss, k)
  {
    if |ss| > 0 {
      CountKeyCodeBound(ss[..|ss| - 1], k, c);
    }
  }

  /** A session without a usable title changes nothing. */
  lemma UntitledIgnored(ss: seq<Session>, s: Session)
    requires !Titled(s)
    ensures AggregateSessions(ss + [s]) == AggregateSessions(ss)
  {
    assert (ss + [s])[..|ss|] == ss;
  }

  /** Aggregating weeks equals aggregating the concatenation of their sessions. */
  lemma AggregateStatsCounts(weeks: seq<Week>, k: string, c: string)
    ensures HasKey(AggregateStats(weeks).modules, k) <==> CountKey(AllSessions(weeks), k) > 0
    ensures ClassesOf(AggregateStats(weeks), k) == CountKey(AllSessions(weeks), k)
    ensures CountOf(EntryOf(AggregateStats(weeks), k), c) == CountKeyCode(AllSessions(weeks), k, c)
    ensures GetOr(AggregateStats(weeks).absenceTotals, c, 0) == CountCode(AllSessions(weeks), c)
  {
    AggregateCounts(AllSessions(weeks), k, c);
  }
}
