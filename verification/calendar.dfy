/** The calendar helpers of `lib/utils.ts` that the sync route uses to walk
    the school year: the academic-year range, the Mondays between two
    instants and the `dd-mm-yyyy` form of a date. Instants are JavaScript
    time values, milliseconds since 1970-01-01T00:00:00Z, and calendar
    dates are those of the proleptic Gregorian calendar in UTC. */
module Calendar {
  import opened Wrappers
  import opened JsString
  import Scraper

  // ---- days and dates ----

  predicate IsLeap(y: int) { y % 4 == 0 && (y % 100 != 0 || y % 400 == 0) }

  function DaysInYear(y: int): int { if IsLeap(y) then 366 else 365 }

  /** Days from 1970-01-01 to the first of January of `y`; negative before
      1970. */
  function DaysBeforeYear(y: int): int
    decreases if y >= 1970 then y - 1970 else 1970 - y
  {
    if y == 1970 then 0
    else if y > 1970 then DaysBeforeYear(y - 1) + DaysInYear(y - 1)
    else DaysBeforeYear(y + 1) - DaysInYear(y)
  }

  lemma YearStep(y: int)
    ensures DaysBeforeYear(y + 1) == DaysBeforeYear(y) + DaysInYear(y)
  {
  }

  /** Later years start later: by at least the length of every year between. */
  lemma {:induction false} YearsIncrease(a: int, b: int)
    requires a < b
    ensures DaysBeforeYear(a) + DaysInYear(a) <= DaysBeforeYear(b)
    decreases b - a
  {
    YearStep(a);
    if a + 1 < b {
      YearsIncrease(a + 1, b);
    }
  }

  /** Days of the year before the first of each month, in a common year. */
  const CumulativeDays: seq<int> := [0, 31, 59, 90, 120, 151, 181, 212, 243, 273, 304, 334, 365]

  /** Days of year `y` before the first of month `m` (month 13 stands for the
      end of the year). */
  function DaysBeforeMonth(y: int, m: int): int
    requires 1 <= m <= 13
  {
    CumulativeDays[m - 1] + (if m > 2 && IsLeap(y) then 1 else 0)
  }

  function DaysInMonth(y: int, m: int): (r: int)
    requires 1 <= m <= 12
    ensures 28 <= r <= 31
  {
    DaysBeforeMonth(y, m + 1) - DaysBeforeMonth(y, m)
  }

  /** Later months start later. */
  lemma MonthsIncrease(y: int, a: int, b: int)
    requires 1 <= a < b <= 13
    ensures DaysBeforeMonth(y, a) + DaysInMonth(y, a) <= DaysBeforeMonth(y, b)
  {
  }

  datatype Date = Date(year: int, month: int, day: int)

  predicate Valid(dt: Date) {
    1 <= dt.month <= 12 && 1 <= dt.day <= DaysInMonth(dt.year, dt.month)
  }

  /** Days from 1970-01-01 to the date; `Date.UTC(y, m - 1, d)` divided by the
      length of a day. */
  function DayNumber(dt: Date): int
    requires Valid(dt)
  {
    DaysBeforeYear(dt.year) + DaysBeforeMonth(dt.year, dt.month) + dt.day - 1
  }

  /** A date's day lies inside its year. */
  lemma DayInYear(dt: Date)
    requires Valid(dt)
    ensures DaysBeforeYear(dt.year) <= DayNumber(dt) < DaysBeforeYear(dt.year + 1)
  {
    YearStep(dt.year);
    MonthsIncrease(dt.year, dt.month, 13);
  }

  /** Different dates have different day numbers. */
  lemma DayNumberInjective(a: Date, b: Date)
    requires Valid(a) && Valid(b) && DayNumber(a) == DayNumber(b)
    ensures a == b
  {
    DayInYear(a);
    DayInYear(b);
    if a.year < b.year {
      YearsIncrease(a.year, b.year);
      YearStep(a.year);
      assert false;
    } else if b.year < a.year {
      YearsIncrease(b.year, a.year);
      YearStep(b.year);
      assert false;
    }
    if a.month < b.month {
      MonthsIncrease(a.year, a.month, b.month);
      assert false;
    } else if b.month < a.month {
      MonthsIncrease(a.year, b.month, a.month);
      assert false;
    }
  }

  function YearUp(n: int, y: int): (r: int)
    requires DaysBeforeYear(y) <= n
    ensures DaysBeforeYear(r) <= n < DaysBeforeYear(r + 1)
    decreases n - DaysBeforeYear(y)
  {
    YearStep(y);
    if n < DaysBeforeYear(y + 1) then y else YearUp(n, y + 1)
  }

  function YearDown(n: int, y: int): (r: int)
    requires n < DaysBeforeYear(y + 1)
    ensures DaysBeforeYear(r) <= n < DaysBeforeYear(r + 1)
    decreases DaysBeforeYear(y + 1) - n
  {
    YearStep(y);
    if DaysBeforeYear(y) <= n then y else YearDown(n, y - 1)
  }

  /** The year that holds day `n`. */
  function YearOfDay(n: int): (r: int)
    ensures DaysBeforeYear(r) <= n < DaysBeforeYear(r + 1)
  {
    if n >= 0 then YearUp(n, 1970) else YearDown(n, 1969)
  }

  function MonthFrom(y: int, offset: int, m: int): (r: int)
    requires 1 <= m <= 12 && DaysBeforeMonth(y, m) <= offset < DaysBeforeMonth(y, 13)
    ensures 1 <= r <= 12 && DaysBeforeMonth(y, r) <= offset < DaysBeforeMonth(y, r + 1)
    decreases 12 - m
  {
    if offset < DaysBeforeMonth(y, m + 1) then m else MonthFrom(y, offset, m + 1)
  }

  /** The calendar date of day `n`, what `getUTCFullYear`, `getUTCMonth` and
      `getUTCDate` read. */
  function CivilFromDays(n: int): (r: Date)
    ensures Valid(r) && DayNumber(r) == n
  {
    var y := YearOfDay(n);
    YearStep(y);
    var offset := n - DaysBeforeYear(y);
    var m := MonthFrom(y, offset, 1);
    Date(y, m, offset - DaysBeforeMonth(y, m) + 1)
  }

  /** Day numbers and dates are the same thing written two ways. */
  lemma CivilRoundTrip(dt: Date)
    requires Valid(dt)
    ensures CivilFromDays(DayNumber(dt)) == dt
  {
    DayNumberInjective(CivilFromDays(DayNumber(dt)), dt);
  }

  /** The day of an instant: `Math.floor(ms / 86400000)`. */
  function DayOf(ms: int): int { ms / 86400000 }

  /** `getUTCDay()`: 0 for Sunday to 6 for Saturday; 1970-01-01 was a
      Thursday. */
  function Weekday(n: int): (r: int)
    ensures 0 <= r < 7
  {
    (n + 4) % 7
  }

  lemma DayOfShift(ms: int, k: int)
    ensures DayOf(ms + k * 86400000) == DayOf(ms) + k
  {
    var q, rem := ms / 86400000, ms % 86400000;
    assert ms == q * 86400000 + rem;
    assert ms + k * 86400000 == (q + k) * 86400000 + rem;
  }

  /** `Date.UTC(y, m - 1, d)`: the instant of the date's UTC midnight. */
  function UtcMs(dt: Date): int
    requires Valid(dt)
  {
    DayNumber(dt) * 86400000
  }

  lemma UtcMsDay(dt: Date)
    requires Valid(dt)
    ensures DayOf(UtcMs(dt)) == DayNumber(dt) && CivilFromDays(DayOf(UtcMs(dt))) == dt
    ensures UtcMs(dt) % 86400000 == 0
  {
    DayOfShift(0, DayNumber(dt));
    CivilRoundTrip(dt);
  }

  // ---- getAcademicYearRange ----

  datatype Range = Range(startMs: int, endMs: int)

  /** The first of September of `y`, the day a school year starts. */
  function SeptemberFirst(y: int): Date { Date(y, 9, 1) }

  /** The 31st of August of `y`, the day a school year ends. */
  function AugustLast(y: int): Date { Date(y, 8, 31) }

  lemma SeptemberFirstFacts(y: int)
    ensures Valid(SeptemberFirst(y))
    ensures CivilFromDays(DayOf(UtcMs(SeptemberFirst(y)))) == SeptemberFirst(y)
    ensures UtcMs(SeptemberFirst(y)) % 86400000 == 0
  {
    UtcMsDay(SeptemberFirst(y));
  }

  lemma AugustLastFacts(y: int)
    ensures Valid(AugustLast(y))
    ensures CivilFromDays(DayOf(UtcMs(AugustLast(y)))) == AugustLast(y)
    ensures UtcMs(AugustLast(y)) % 86400000 == 0
  {
    UtcMsDay(AugustLast(y));
  }

  lemma SchoolYearOrdered(y: int)
    ensures Valid(SeptemberFirst(y)) && Valid(AugustLast(y + 1))
    ensures DayNumber(SeptemberFirst(y)) < DayNumber(AugustLast(y + 1))
  {
    YearStep(y);
  }

  lemma SchoolYearBounds(startYear: int)
    ensures Valid(SeptemberFirst(startYear)) && Valid(AugustLast(startYear + 1))
    ensures var first, last := CivilFromDays(DayOf(UtcMs(SeptemberFirst(startYear)))),
                               CivilFromDays(DayOf(UtcMs(AugustLast(startYear + 1))));
      first == SeptemberFirst(startYear) && last == AugustLast(startYear + 1)
    ensures UtcMs(SeptemberFirst(startYear)) % 86400000 == 0 && UtcMs(AugustLast(startYear + 1)) % 86400000 == 0
    ensures UtcMs(SeptemberFirst(startYear)) < UtcMs(AugustLast(startYear + 1))
  {
    SeptemberFirstFacts(startYear);
    AugustLastFacts(startYear + 1);
    SchoolYearOrdered(startYear);
  }

  /** The year the current school year started in: this one from its first
      of September (UTC) on, the previous one before. */
  function AcademicStartYear(localYear: int, todayMs: int): (y: int)
    ensures y == localYear || y == localYear - 1
    ensures y == localYear - 1 <==> todayMs < UtcMs(SeptemberFirst(localYear))
  {
    if todayMs < UtcMs(SeptemberFirst(localYear)) then localYear - 1 else localYear
  }

  /** `getAcademicYearRange(today)`, given the local calendar year of `today`
      (`getFullYear`) and its instant: the school year runs from the first of
      September to the 31st of August. */
  function GetAcademicYearRange(localYear: int, todayMs: int): (r: Range)
    ensures var y := AcademicStartYear(localYear, todayMs);
      Valid(SeptemberFirst(y)) && Valid(AugustLast(y + 1))
      && r.startMs == UtcMs(SeptemberFirst(y)) && r.endMs == UtcMs(AugustLast(y + 1))
  {
    var y := AcademicStartYear(localYear, todayMs);
    Range(UtcMs(SeptemberFirst(y)), UtcMs(AugustLast(y + 1)))
  }

  /** Read back as dates, the range runs from the first of September to the
      31st of August after it, both at UTC midnight; its start year is this
      one or the previous one, the previous exactly while today is before
      this year's first of September. */
  lemma AcademicYearRangeDates(localYear: int, todayMs: int)
    ensures var r := GetAcademicYearRange(localYear, todayMs);
      var first := CivilFromDays(DayOf(r.startMs));
      && r.startMs % 86400000 == 0 && r.endMs % 86400000 == 0
      && first.month == 9 && first.day == 1
      && CivilFromDays(DayOf(r.endMs)) == Date(first.year + 1, 8, 31)
      && (first.year == localYear - 1 <==> todayMs < UtcMs(SeptemberFirst(localYear)))
      && (first.year == localYear || first.year == localYear - 1)
      && r.startMs < r.endMs
  {
    var y := AcademicStartYear(localYear, todayMs);
    var r := GetAcademicYearRange(localYear, todayMs);
    SchoolYearBounds(y);
    assert r.startMs == UtcMs(SeptemberFirst(y)) && r.endMs == UtcMs(AugustLast(y + 1));
    assert CivilFromDays(DayOf(r.startMs)) == Date(y, 9, 1);
  }

  /** When the local year is also today's UTC year, today falls inside the
      range, counting its last day whole. */
  lemma TodayInAcademicYear(localYear: int, todayMs: int)
    requires DaysBeforeYear(localYear) * 86400000 <= todayMs < DaysBeforeYear(localYear + 1) * 86400000
    ensures var r := GetAcademicYearRange(localYear, todayMs);
      r.startMs <= todayMs < r.endMs + 86400000
  {
    SchoolYearInsideYears(localYear - 1);
    SchoolYearInsideYears(localYear);
  }

  /** A school year starts inside its first calendar year and ends inside
      the next, the day before the following school year starts. */
  lemma SchoolYearInsideYears(y: int)
    ensures Valid(SeptemberFirst(y)) && Valid(AugustLast(y + 1)) && Valid(SeptemberFirst(y + 1))
    ensures DaysBeforeYear(y) <= DayNumber(SeptemberFirst(y)) < DaysBeforeYear(y + 1)
    ensures DaysBeforeYear(y + 1) <= DayNumber(AugustLast(y + 1))
    ensures DayNumber(AugustLast(y + 1)) + 1 == DayNumber(SeptemberFirst(y + 1))
  {
    YearStep(y);
  }

  // ---- enumerateMondaysBetween ----

  /** `deltaToMonday`: days from a weekday to the next Monday, none from a
      Monday itself. */
  function MondayDelta(weekday: int): int {
    if weekday == 0 then 1 else if weekday == 1 then 0 else 8 - weekday
  }

  /** The delta lands on a Monday and skips none. */
  lemma MondayDeltaMeaning(n: int)
    ensures var delta := MondayDelta(Weekday(n));
      && 0 <= delta <= 6
      && Weekday(n + delta) == 1
      && forall m :: n <= m < n + delta ==> Weekday(m) != 1
  {
    var w := Weekday(n);
    var q := (n + 4) / 7;
    assert n + 4 == 7 * q + w;
    var delta := MondayDelta(w);
    assert (n + delta + 4) == 7 * q + (w + delta);
    assert Weekday(n + delta) == 1 by {
      if w <= 1 { assert n + delta + 4 == 7 * q + 1; }
      else { assert n + delta + 4 == 7 * (q + 1) + 1; }
    }
    forall m | n <= m < n + delta ensures Weekday(m) != 1 {
      assert m + 4 == 7 * q + (w + (m - n));
      var x := w + (m - n);
      assert x == 0 || 2 <= x <= 7;
      if x == 7 { assert m + 4 == 7 * (q + 1); }
    }
  }

  lemma {:induction false} WeeksKeepWeekday(n: int, i: nat)
    ensures Weekday(n + 7 * i) == Weekday(n)
  {
    if i > 0 {
      WeeksKeepWeekday(n, i - 1);
      assert n + 7 * i == (n + 7 * (i - 1)) + 7;
    }
  }

  /** The instant the enumeration starts from: `start` moved to the next
      Monday, same time of day. */
  function FirstMondayMs(startMs: int): int {
    startMs + MondayDelta(Weekday(DayOf(startMs))) * 86400000
  }

  /** The instant of entry `i`: `i` weeks after the first Monday. */
  function MondayMs(startMs: int, i: int): int {
    FirstMondayMs(startMs) + i * 604800000
  }

  lemma MondayMsNext(startMs: int, i: int)
    ensures MondayMs(startMs, i + 1) == MondayMs(startMs, i) + 604800000
  {
    assert (i + 1) * 604800000 == i * 604800000 + 604800000;
  }

  lemma MondayMsMonotone(startMs: int, i: int, j: int)
    requires i <= j
    ensures MondayMs(startMs, i) <= MondayMs(startMs, j)
  {
    assert j * 604800000 - i * 604800000 == (j - i) * 604800000;
  }

  /** A year, as `${y}` writes it. */
  function YearText(y: int): string {
    if y >= 0 then NatToString(y) else "-" + NatToString(-y)
  }

  /** `${y}-${mm}-${dd}` */
  function FormatDate(dt: Date): string
    requires Valid(dt)
  {
    YearText(dt.year) + "-" + Pad2(dt.month as nat) + "-" + Pad2(dt.day as nat)
  }

  function FormatInstant(ms: int): string {
    FormatDate(CivilFromDays(DayOf(ms)))
  }

  /** Each instant formatted as its UTC date. */
  function FormatAll(instants: seq<int>): (r: seq<string>)
    ensures |r| == |instants|
    ensures forall i :: 0 <= i < |r| ==> r[i] == FormatInstant(instants[i])
  {
    if |instants| == 0 then [] else [FormatInstant(instants[0])] + FormatAll(instants[1..])
  }

  /** The instants `enumerateMondaysBetween` steps through: from the first
      Monday on or after `start`, every seventh day up to `end`. */
  method MondayInstants(startMs: int, endMs: int) returns (r: seq<int>)
    ensures forall i :: 0 <= i < |r| ==> r[i] == MondayMs(startMs, i) <= endMs
    ensures MondayMs(startMs, |r|) > endMs
  {
    var d := FirstMondayMs(startMs);
    r := [];
    while d <= endMs
      invariant d == MondayMs(startMs, |r|)
      invariant forall i :: 0 <= i < |r| ==> r[i] == MondayMs(startMs, i) <= endMs
      decreases endMs - d
    {
      MondayMsNext(startMs, |r|);
      r := r + [d];
      d := d + 604800000;
    }
  }

  /** `enumerateMondaysBetween(start, end)`: those instants as `yyyy-mm-dd`. */
  method EnumerateMondaysBetween(startMs: int, endMs: int) returns (r: seq<string>)
    ensures forall i :: 0 <= i < |r| ==> MondayMs(startMs, i) <= endMs && r[i] == FormatInstant(MondayMs(startMs, i))
    ensures MondayMs(startMs, |r|) > endMs
  {
    var instants := MondayInstants(startMs, endMs);
    r := FormatAll(instants);
  }

  /** Entry `i` is the date of a Monday, `7 i` days after the first Monday on
      or after the day of `start`, and there is no Monday between the day of
      `start` and the first entry. */
  lemma MondaysMeaning(startMs: int, i: nat)
    ensures var n := DayOf(MondayMs(startMs, i));
      && Weekday(n) == 1
      && n == DayOf(FirstMondayMs(startMs)) + 7 * i
    ensures var first := DayOf(FirstMondayMs(startMs));
      && DayOf(startMs) <= first <= DayOf(startMs) + 6
      && forall k :: DayOf(startMs) <= k < first ==> Weekday(k) != 1
  {
    var s := DayOf(startMs);
    var delta := MondayDelta(Weekday(s));
    MondayDeltaMeaning(s);
    DayOfShift(startMs, delta);
    var fm := FirstMondayMs(startMs);
    DayOfShift(fm, 7 * i);
    assert MondayMs(startMs, i) == fm + (7 * i) * 86400000;
    WeeksKeepWeekday(s + delta, i);
  }

  // ---- isoToDDMMYYYY ----

  /** A destructured part of the split, `undefined` when missing. */
  function Part(parts: seq<string>, k: nat): string {
    if k < |parts| then parts[k] else "undefined"
  }

  /** `isoToDDMMYYYY`: the three `-`-separated parts in reverse order. */
  function IsoToDDMMYYYY(iso: string): string {
    var parts := Split(iso, '-');
    Part(parts, 2) + "-" + Part(parts, 1) + "-" + Part(parts, 0)
  }

  predicate AllDigitsOf(s: string) { forall i :: 0 <= i < |s| ==> IsDigit(s[i]) }

  /** An ISO-shaped date splits into its year, month and day. */
  lemma IsoParts(iso: string)
    requires Scraper.IsoShaped(iso)
    ensures Split(iso, '-') == [iso[..4], iso[5..7], iso[8..]]
    ensures AllDigitsOf(iso[..4]) && AllDigitsOf(iso[5..7]) && AllDigitsOf(iso[8..])
  {
    var y, m, d := iso[..4], iso[5..7], iso[8..];
    assert AllDigitsOf(y) by { assert forall i :: 0 <= i < 4 ==> IsDigit(iso[i]); }
    assert AllDigitsOf(m) by { assert forall i :: 5 <= i < 7 ==> IsDigit(iso[i]); }
    assert AllDigitsOf(d) by { assert forall i :: 8 <= i < 10 ==> IsDigit(iso[i]); }
    SplitAppend(y, m + "-" + d, '-');
    SplitAppend(m, d, '-');
    SplitWithoutSeparator(d, '-');
    assert y + "-" + (m + "-" + d) == iso;
  }

  /** `dd-mm-yyyy` built from digit parts is rewritten back to `yyyy-mm-dd`. */
  lemma ReorderedDate(y: string, m: string, d: string)
    requires |y| == 4 && |m| == 2 && |d| == 2
    requires AllDigitsOf(y) && AllDigitsOf(m) && AllDigitsOf(d)
    ensures Scraper.NormalizeDate(d + "-" + m + "-" + y) == y + "-" + m + "-" + d
  {
    var s := d + "-" + m + "-" + y;
    assert s[0] == d[0] && s[1] == d[1] && s[2] == '-' && s[3] == m[0] && s[4] == m[1] && s[5] == '-';
    assert s[6] == y[0] && s[7] == y[1] && s[8] == y[2] && s[9] == y[3];
    assert Scraper.DatePatternAt(s, 0);
    Scraper.NormalizeDateRewrites(s, 0);
    assert s[6..10] == y && s[3..5] == m && s[0..2] == d;
  }

  /** A `yyyy-mm-dd` date comes back unchanged from `normalizeDate` of the
      scraper after `isoToDDMMYYYY`: the portal's date form and the stored
      one convert into each other. */
  lemma IsoDateRoundTrip(iso: string)
    requires Scraper.IsoShaped(iso)
    ensures Scraper.NormalizeDate(IsoToDDMMYYYY(iso)) == iso
  {
    var y, m, d := iso[..4], iso[5..7], iso[8..];
    IsoParts(iso);
    assert IsoToDDMMYYYY(iso) == d + "-" + m + "-" + y;
    ReorderedDate(y, m, d);
    assert y + "-" + m + "-" + d == iso;
  }
}
