/** The ISO-date helpers of `lib/utils/dates.ts`. Dates are `yyyy-mm-dd`
    strings compared as strings, in code-unit order. */
module Dates {
  import opened Seqs

  /** `getTodayLocalISO`, given the `toISOString()` of the local time: its
      first ten characters, or all of it when shorter. */
  function TodayLocalISO(isoTimestamp: string): (r: string)
    ensures |r| == if |isoTimestamp| < 10 then |isoTimestamp| else 10
    ensures r == isoTimestamp[..|r|]
  {
    if |isoTimestamp| < 10 then isoTimestamp else isoTimestamp[..10]
  }

  /** `isDateWithinRange`: `start <= date <= end` in string order. */
  predicate IsDateWithinRange(dateISO: string, startISO: string, endISO: string) {
    StringLessEq(startISO, dateISO) && StringLessEq(dateISO, endISO)
  }

  /** Each end belongs to the range exactly when the range is not
      reversed. */
  lemma RangeIncludesEnds(startISO: string, endISO: string)
    ensures IsDateWithinRange(startISO, startISO, endISO) <==> StringLessEq(startISO, endISO)
    ensures IsDateWithinRange(endISO, startISO, endISO) <==> StringLessEq(startISO, endISO)
  {
  }

  /** A range whose start comes after its end holds no date at all. */
  lemma ReversedRangeIsEmpty(dateISO: string, startISO: string, endISO: string)
    requires StringLess(endISO, startISO)
    ensures !IsDateWithinRange(dateISO, startISO, endISO)
  {
    if IsDateWithinRange(dateISO, startISO, endISO) {
      LessEqTrans(startISO, dateISO, endISO);
      if startISO == endISO {
        StringLessIrreflexive(startISO);
      } else {
        StringLessTrans(startISO, endISO, startISO);
        StringLessIrreflexive(startISO);
      }
    }
  }
}
