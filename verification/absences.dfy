/** `aggregateWeeklyAbsences` of `lib/utils/absences.ts`: the absences of one
    week, day by day and by type, read from the cells' CSS classes. */
module Absences {
  import opened Wrappers
  import opened Assoc
  import opened JsString
  import opened SnapshotModel
  import opened Seqs
  import Aggregation

  // ---- the class pattern /\bfalta[_\s-]([a-z])\b/ ----

  /** The separator after "falta": `_`, `-` or any `\s` character. */
  predicate Separator(c: char) { c == '_' || c == '-' || IsJsSpace(c) }

  /** The pattern matches at `i`: a word boundary, "falta", a separator, one
      lower-case letter and a word boundary again. */
  predicate FaltaAt(s: string, i: int) {
    && 0 <= i && i + 7 <= |s|
    && (i == 0 || !IsWordChar(s[i - 1]))
    && s[i..i + 5] == "falta"
    && Separator(s[i + 5])
    && IsAsciiLower(s[i + 6])
    && (i + 7 == |s| || !IsWordChar(s[i + 7]))
  }

  function FirstFalta(s: string, from: nat): (r: Option<nat>)
    ensures r.Some? ==> from <= r.value && FaltaAt(s, r.value) &&
                        forall j :: from <= j < r.value ==> !FaltaAt(s, j)
    ensures r.None? ==> forall j :: from <= j ==> !FaltaAt(s, j)
    decreases |s| - from
  {
    if from + 7 > |s| then None
    else if FaltaAt(s, from) then Some(from)
    else FirstFalta(s, from + 1)
  }

  /** The lower-cased class the pattern is run on; `""` when it is missing. */
  function LoweredClass(cssClass: Option<string>): string {
    ToLower(cssClass.GetOr(""))
  }

  /** The absence type of a cell: the upper-cased letter of the leftmost
      match, none when the pattern does not match. */
  function AbsenceType(cssClass: Option<string>): (r: Option<string>)
    ensures r.Some? <==> exists i :: FaltaAt(LoweredClass(cssClass), i)
    ensures r.Some? ==> exists i :: (FaltaAt(LoweredClass(cssClass), i)
      && (forall j :: 0 <= j < i ==> !FaltaAt(LoweredClass(cssClass), j))
      && r.value == [UpperChar(LoweredClass(cssClass)[i + 6])])
    ensures r.Some? ==> |r.value| == 1 && IsAsciiUpper(r.value[0])
  {
    var s := LoweredClass(cssClass);
    match FirstFalta(s, 0)
    case None => None
    case Some(i) => Some([UpperChar(s[i + 6])])
  }

  // ---- one day's bucket ----

  datatype DayBucket = DayBucket(total: nat, types: AList<nat>)

  const EmptyBucket: DayBucket := DayBucket(0, [])

  /** `bucket.total += 1; bucket.types[type] = (bucket.types[type] || 0) + 1` */
  function Record(b: DayBucket, t: string): DayBucket {
    DayBucket(b.total + 1, Aggregation.Bump(b.types, t))
  }

  /** What the loop reads of a cell: its date and the absence type its class
      names. */
  datatype TypedCell = TypedCell(date: string, absence: Option<string>)

  function Classify(cells: seq<Session>): (r: seq<TypedCell>)
    ensures |r| == |cells| &&
      forall i :: 0 <= i < |cells| ==> r[i] == TypedCell(cells[i].dateISO, AbsenceType(cells[i].cssClass))
  {
    if |cells| == 0 then [] else [TypedCell(cells[0].dateISO, AbsenceType(cells[0].cssClass))] + Classify(cells[1..])
  }

  /** The cell adds to day `d`: it is dated `d`, `d` is not empty, and its
      class names an absence type. */
  predicate Counted(cell: TypedCell, d: string) {
    d != "" && cell.date == d && cell.absence.Some?
  }

  /** How many cells add to day `d`. */
  function Count(cells: seq<TypedCell>, d: string): nat {
    if |cells| == 0 then 0
    else (if Counted(cells[0], d) then 1 else 0) + Count(cells[1..], d)
  }

  /** How many cells add to day `d` with type `t`. */
  function CountType(cells: seq<TypedCell>, d: string, t: string): nat {
    if |cells| == 0 then 0
    else (if Counted(cells[0], d) && cells[0].absence.value == t then 1 else 0)
         + CountType(cells[1..], d, t)
  }

  /** One day's bucket after all the cells, taken one at a time. */
  function DayAfter(b: DayBucket, cells: seq<TypedCell>, d: string): DayBucket
    decreases |cells|
  {
    if |cells| == 0 then b
    else DayAfter(Step(b, cells[0], d), cells[1..], d)
  }

  /** The bucket's total is the sum of its type counts. */
  predicate Balanced(b: DayBucket) {
    UniqueKeys(b.types) && b.total == SumBy(b.types, Aggregation.NatValue)
  }

  /** One cell moves the day's bucket by one absence exactly when it counts. */
  function Step(b: DayBucket, cell: TypedCell, d: string): DayBucket {
    if Counted(cell, d) then Record(b, cell.absence.value) else b
  }

  lemma {:induction false} DayAfterTotal(b: DayBucket, cells: seq<TypedCell>, d: string)
    ensures DayAfter(b, cells, d).total == b.total + Count(cells, d)
    decreases |cells|
  {
    if |cells| > 0 {
      assert DayAfter(b, cells, d) == DayAfter(Step(b, cells[0], d), cells[1..], d);
      DayAfterTotal(Step(b, cells[0], d), cells[1..], d);
    }
  }

  lemma {:induction false} DayAfterTypes(b: DayBucket, cells: seq<TypedCell>, d: string, t: string)
    ensures GetOr<nat>(DayAfter(b, cells, d).types, t, 0) == GetOr<nat>(b.types, t, 0) + CountType(cells, d, t)
    decreases |cells|
  {
    if |cells| > 0 {
      var c := cells[0];
      var b1 := Step(b, c, d);
      var k: nat := if Counted(c, d) && c.absence.value == t then 1 else 0;
      assert DayAfter(b, cells, d) == DayAfter(b1, cells[1..], d);
      assert CountType(cells, d, t) == k + CountType(cells[1..], d, t);
      assert GetOr<nat>(b1.types, t, 0) == GetOr<nat>(b.types, t, 0) + k by {
        if Counted(c, d) {
          var ty := c.absence.value;
          assert b1.types == Aggregation.Bump(b.types, ty);
          Aggregation.BumpGet(b.types, ty);
        } else {
          assert b1 == b;
        }
      }
      DayAfterTypes(b1, cells[1..], d, t);
    }
  }

  lemma {:induction false} DayAfterBalanced(b: DayBucket, cells: seq<TypedCell>, d: string)
    requires Balanced(b)
    ensures Balanced(DayAfter(b, cells, d))
    decreases |cells|
  {
    if |cells| > 0 {
      assert DayAfter(b, cells, d) == DayAfter(Step(b, cells[0], d), cells[1..], d);
      if Counted(cells[0], d) {
        Aggregation.BumpFacts(b.types, cells[0].absence.value);
      }
      DayAfterBalanced(Step(b, cells[0], d), cells[1..], d);
    }
  }

  // ---- the week ----

  /** The days of `Object.fromEntries(daysISO.map(...))`: each day once, at
      the place of its first occurrence. */
  function Dedup(days: seq<string>): (r: seq<string>)
    ensures forall x :: x in r <==> x in days
    ensures forall i, j :: 0 <= i < j < |r| ==> r[i] != r[j]
  {
    if |days| == 0 then []
    else
      var p := Dedup(days[..|days| - 1]);
      assert days == days[..|days| - 1] + [days[|days| - 1]];
      if days[|days| - 1] in p then p else p + [days[|days| - 1]]
  }

  lemma {:induction false} DedupInOrder(days: seq<string>)
    ensures IsSubsequence(Dedup(days), days)
  {
    if |days| > 0 {
      var init, last := days[..|days| - 1], days[|days| - 1];
      DedupInOrder(init);
      assert days == init + [last];
      if last in Dedup(init) {
        SubsequenceExtend(Dedup(init), init, last);
      } else {
        SubsequenceAppend(Dedup(init), init, last);
      }
    }
  }

  /** `byDate` before any cell: an empty bucket per day. */
  function InitialBuckets(days: seq<string>): (r: AList<DayBucket>)
    ensures forall d :: HasKey(r, d) ==> Get(r, d) == Some(EmptyBucket)
  {
    if |days| == 0 then [] else Put(InitialBuckets(days[..|days| - 1]), days[|days| - 1], EmptyBucket)
  }

  lemma {:induction false} InitialBucketsKeys(days: seq<string>)
    ensures Keys(InitialBuckets(days)) == Dedup(days)
  {
    if |days| > 0 {
      var init := days[..|days| - 1];
      InitialBucketsKeys(init);
      PutKeys(InitialBuckets(init), days[|days| - 1], EmptyBucket);
    }
  }

  /** One pass of the loop: the cell's day gets its absence, when it counts. */
  function AddCell(byDate: AList<DayBucket>, cell: TypedCell): (r: AList<DayBucket>)
    ensures forall d :: HasKey(byDate, d) ==>
      Get(r, d) == Some(if Counted(cell, d) then Record(Get(byDate, d).value, cell.absence.value)
                        else Get(byDate, d).value)
  {
    var date := cell.date;
    if date == "" || !HasKey(byDate, date) then byDate
    else match cell.absence
      case None => byDate
      case Some(t) => Put(byDate, date, Record(Get(byDate, date).value, t))
  }

  lemma AddCellKeys(byDate: AList<DayBucket>, cell: TypedCell)
    ensures Keys(AddCell(byDate, cell)) == Keys(byDate)
  {
    var date := cell.date;
    if date != "" && HasKey(byDate, date) && cell.absence.Some? {
      PutKeys(byDate, date, Record(Get(byDate, date).value, cell.absence.value));
    }
  }

  /** The loop over `selectedWeek.sessions`. */
  function AddCells(byDate: AList<DayBucket>, cells: seq<TypedCell>): AList<DayBucket>
    decreases |cells|
  {
    if |cells| == 0 then byDate else AddCells(AddCell(byDate, cells[0]), cells[1..])
  }

  lemma {:induction false} AddCellsKeys(byDate: AList<DayBucket>, cells: seq<TypedCell>)
    ensures Keys(AddCells(byDate, cells)) == Keys(byDate)
    decreases |cells|
  {
    if |cells| > 0 {
      AddCellKeys(byDate, cells[0]);
      AddCellsKeys(AddCell(byDate, cells[0]), cells[1..]);
    }
  }

  /** The loop treats every listed day on its own. */
  lemma {:induction false} AddCellsDay(byDate: AList<DayBucket>, cells: seq<TypedCell>, d: string)
    requires HasKey(byDate, d)
    ensures Get(AddCells(byDate, cells), d) == Some(DayAfter(Get(byDate, d).value, cells, d))
    decreases |cells|
  {
    if |cells| > 0 {
      AddCellKeys(byDate, cells[0]);
      AddCellsDay(AddCell(byDate, cells[0]), cells[1..], d);
    }
  }

  datatype DayAbsences = DayAbsences(date: string, total: nat, types: AList<nat>)

  function Entries(m: AList<DayBucket>): (r: seq<DayAbsences>)
    ensures |r| == |m| && forall i :: 0 <= i < |m| ==> r[i] == DayAbsences(m[i].0, m[i].1.total, m[i].1.types)
  {
    if |m| == 0 then [] else [DayAbsences(m[0].0, m[0].1.total, m[0].1.types)] + Entries(m[1..])
  }

  /** `byDate` after the loop. */
  function FinalBuckets(days: seq<string>, cells: seq<TypedCell>): AList<DayBucket> {
    AddCells(InitialBuckets(days), cells)
  }

  lemma FinalBucketsKeys(days: seq<string>, cells: seq<TypedCell>)
    ensures Keys(FinalBuckets(days, cells)) == Dedup(days)
    ensures UniqueKeys(FinalBuckets(days, cells))
  {
    var m := FinalBuckets(days, cells);
    InitialBucketsKeys(days);
    AddCellsKeys(InitialBuckets(days), cells);
    forall i, j | 0 <= i < j < |m| ensures m[i].0 != m[j].0 {
      assert Keys(m)[i] == m[i].0 && Keys(m)[j] == m[j].0;
    }
  }

  lemma FinalBucketAt(days: seq<string>, cells: seq<TypedCell>, i: nat)
    requires i < |FinalBuckets(days, cells)|
    ensures var e := FinalBuckets(days, cells)[i];
      && Balanced(e.1)
      && e.1.total == Count(cells, e.0)
      && forall t :: GetOr(e.1.types, t, 0) == CountType(cells, e.0, t)
  {
    var m := FinalBuckets(days, cells);
    FinalBucketsKeys(days, cells);
    var d := m[i].0;
    assert Keys(m)[i] == d;
    GetEntry(m, i);
    InitialBucketsKeys(days);
    AddCellsDay(InitialBuckets(days), cells, d);
    DayAfterTotal(EmptyBucket, cells, d);
    DayAfterBalanced(EmptyBucket, cells, d);
    forall t ensures GetOr(m[i].1.types, t, 0) == CountType(cells, d, t) {
      DayAfterTypes(EmptyBucket, cells, d, t);
    }
  }

  /** `aggregateWeeklyAbsences`: nothing without a week; otherwise one entry
      per distinct day, in the order the days are listed, counting the cells
      of that day whose class names an absence, by type, with the total the
      sum of the type counts. */
  function AggregateWeeklyAbsences(week: Option<Week>): (r: seq<DayAbsences>)
    ensures week.None? ==> r == []
    ensures week.Some? ==> |r| == |Dedup(week.value.daysISO)|
    ensures week.Some? ==> forall i :: 0 <= i < |r| ==>
      && r[i].date == Dedup(week.value.daysISO)[i]
      && r[i].total == Count(Classify(week.value.sessions), r[i].date)
      && UniqueKeys(r[i].types)
      && r[i].total == SumBy(r[i].types, Aggregation.NatValue)
    ensures week.Some? ==> forall i, t :: 0 <= i < |r| ==>
      GetOr(r[i].types, t, 0) == CountType(Classify(week.value.sessions), r[i].date, t)
  {
    if week.None? then []
    else
      var m := FinalBuckets(week.value.daysISO, Classify(week.value.sessions));
      FinalBucketsKeys(week.value.daysISO, Classify(week.value.sessions));
      forall i | 0 <= i < |m|
        ensures Balanced(m[i].1) && m[i].1.total == Count(Classify(week.value.sessions), m[i].0)
        ensures forall t :: GetOr(m[i].1.types, t, 0) == CountType(Classify(week.value.sessions), m[i].0, t)
      {
        FinalBucketAt(week.value.daysISO, Classify(week.value.sessions), i);
      }
      assert forall i :: 0 <= i < |m| ==> Keys(m)[i] == m[i].0;
      Entries(m)
  }

  /** Days come out in the order they are listed. */
  lemma AggregateDaysInOrder(week: Week)
    ensures IsSubsequence(Dedup(week.daysISO), week.daysISO)
    ensures forall d :: d in week.daysISO <==> exists i :: 0 <= i < |AggregateWeeklyAbsences(Some(week))| &&
                                                        AggregateWeeklyAbsences(Some(week))[i].date == d
  {
    DedupInOrder(week.daysISO);
    var r := AggregateWeeklyAbsences(Some(week));
    forall d | d in week.daysISO
      ensures exists i :: 0 <= i < |r| && r[i].date == d
    {
      var i :| 0 <= i < |Dedup(week.daysISO)| && Dedup(week.daysISO)[i] == d;
      assert r[i].date == d;
    }
  }
}
