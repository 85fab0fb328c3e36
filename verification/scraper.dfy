/** The text rules of `lib/http/scraper.ts`, applied to text the DOM
    queries have already extracted: date normalisation, timetable rows,
    legend lines, the identity header, and `buildSnapshot`. */
module Scraper {
  import opened Wrappers
  import opened JsString
  import opened Assoc
  import opened Num
  import opened SnapshotModel
  import Aggregation
  import Seqs

  // ---- normalizeDate ----

  /** `/(\d{2})-(\d{2})-(\d{4})/` matches at index `i`. */
  predicate DatePatternAt(s: string, i: int) {
    0 <= i && i + 10 <= |s|
    && IsDigit(s[i]) && IsDigit(s[i + 1]) && s[i + 2] == '-'
    && IsDigit(s[i + 3]) && IsDigit(s[i + 4]) && s[i + 5] == '-'
    && IsDigit(s[i + 6]) && IsDigit(s[i + 7]) && IsDigit(s[i + 8]) && IsDigit(s[i + 9])
  }

  function FirstDatePattern(s: string, from: nat): (r: Option<nat>)
    ensures r.Some? ==> from <= r.value && DatePatternAt(s, r.value)
    ensures r.Some? ==> forall j :: from <= j < r.value ==> !DatePatternAt(s, j)
    ensures r.None? ==> forall j :: from <= j ==> !DatePatternAt(s, j)
    decreases |s| - from
  {
    if from + 10 > |s| then None
    else if DatePatternAt(s, from) then Some(from)
    else FirstDatePattern(s, from + 1)
  }

  /** The shape `normalizeDate` produces: four digits, '-', two digits, '-',
      two digits. */
  predicate IsoShaped(r: string) {
    |r| == 10 && r[4] == '-' && r[7] == '-'
    && forall k :: 0 <= k < 10 && k != 4 && k != 7 ==> IsDigit(r[k])
  }

  /** `normalizeDate`: the first `dd-mm-yyyy` in the text, reordered to
      `yyyy-mm-dd`; without a match the input is returned. */
  function NormalizeDate(d: string): string {
    match FirstDatePattern(d, 0)
    case None => d
    case Some(i) => d[i + 6..i + 10] + "-" + d[i + 3..i + 5] + "-" + d[i..i + 2]
  }

  /** With a match, the result is the first matched date alone, reordered;
      the text around it is dropped. */
  lemma NormalizeDateRewrites(d: string, i: nat)
    requires DatePatternAt(d, i) && forall j :: 0 <= j < i ==> !DatePatternAt(d, j)
    ensures NormalizeDate(d) == d[i + 6..i + 10] + "-" + d[i + 3..i + 5] + "-" + d[i..i + 2]
    ensures IsoShaped(NormalizeDate(d))
  {
    assert FirstDatePattern(d, 0) == Some(i);
    ReorderedShape(d, i);
  }

  /** The matched fields, reordered, have the ISO shape. */
  lemma ReorderedShape(d: string, i: nat)
    requires DatePatternAt(d, i)
    ensures IsoShaped(d[i + 6..i + 10] + "-" + d[i + 3..i + 5] + "-" + d[i..i + 2])
  {
    var y, m, dd := d[i + 6..i + 10], d[i + 3..i + 5], d[i..i + 2];
    var r := y + "-" + m + "-" + dd;
    assert r == y + ("-" + (m + ("-" + dd)));
    forall k | 0 <= k < 10 && k != 4 && k != 7 ensures IsDigit(r[k]) {
      if k < 4 {
        assert r[k] == d[i + 6 + k];
      } else if k < 7 {
        assert r[k] == d[i + 3 + k - 5];
      } else {
        assert r[k] == d[i + k - 8];
      }
    }
  }

  /** Without a match the input comes back unchanged. */
  lemma NormalizeDateUnchanged(d: string)
    requires forall j :: 0 <= j ==> !DatePatternAt(d, j)
    ensures NormalizeDate(d) == d
  {
    assert FirstDatePattern(d, 0).None?;
  }

  // ---- parseSessions ----

  /** A `td` of a timetable row: its text and its `class` attribute. */
  datatype RawCell = RawCell(text: string, classAttr: Option<string>)

  /** A `tr` of the timetable: the text of its first `td.colcabecera` (empty
      when it has none) and all its `td`s. */
  datatype RawRow = RawRow(headerText: string, cells: seq<RawCell>)

  /** Rows whose trimmed header text is a non-empty run of digits are
      session rows. */
  predicate IsSessionRow(row: RawRow) {
    var h := Trim(row.headerText);
    |h| > 0 && AllDigits(h)
  }

  /** `Number(hourText) || 0` for the trimmed text of the first cell. */
  function HourOf(row: RawRow): real {
    var text := if |row.cells| > 0 then Trim(row.cells[0].text) else "";
    var n := StringToNumber(text);
    if n.Finite? && n.value != 0.0 then n.value else 0.0
  }

  /** The session made from day cell `idx` (0-based) of a row. */
  function SessionOf(hour: real, cell: RawCell, idx: nat, daysISO: seq<string>): (s: Session)
    ensures s.weekday == idx + 1 && s.hour == hour
    ensures s.dateISO == if idx < |daysISO| then daysISO[idx] else ""
    ensures s.title.None? <==> Trim(cell.text) == "" || Trim(cell.text) == "-"
    ensures s.title.Some? ==> s.title.value == Trim(cell.text)
    ensures s.cssClass.None? <==> cell.classAttr.None? || cell.classAttr.value == ""
    ensures s.cssClass.Some? ==> s.cssClass == cell.classAttr
  {
    var text := Trim(cell.text);
    Session(
      hour,
      idx + 1,
      if idx < |daysISO| then daysISO[idx] else "",
      if text != "" && text != "-" then Some(text) else None,
      match cell.classAttr case Some(c) => (if c != "" then Some(c) else None) case None => None)
  }

  /** One session per day cell, for the first five cells. */
  function DaySessions(hour: real, cells: seq<RawCell>, daysISO: seq<string>): (r: seq<Session>)
    ensures |r| == if |cells| >= 5 then 5 else |cells|
    ensures forall k :: 0 <= k < |r| ==> r[k] == SessionOf(hour, cells[k], k, daysISO)
  {
    var n := if |cells| >= 5 then 5 else |cells|;
    seq(n, k requires 0 <= k < n => SessionOf(hour, cells[k], k, daysISO))
  }

  /** `tds.slice(1, 6)`, one session per cell. */
  function RowSessions(row: RawRow, daysISO: seq<string>): seq<Session> {
    DaySessions(HourOf(row), if |row.cells| == 0 then [] else row.cells[1..], daysISO)
  }

  /** The sessions of each of `rows`, concatenated in order. */
  function ConcatRows(rows: seq<RawRow>, daysISO: seq<string>): seq<Session> {
    if |rows| == 0 then [] else RowSessions(rows[0], daysISO) + ConcatRows(rows[1..], daysISO)
  }

  function SessionRowFn(): RawRow -> bool { row => IsSessionRow(row) }

  /** `parseSessions`: the cells of every session row, row by row. The
      result is the sessions of the rows that pass the session-row test,
      concatenated in row order. */
  function ParseSessions(rows: seq<RawRow>, daysISO: seq<string>): (r: seq<Session>)
    ensures r == ConcatRows(Seqs.Filter(rows, SessionRowFn()), daysISO)
    ensures forall k :: 0 <= k < |r| ==> 1 <= r[k].weekday <= 5
    ensures forall k :: 0 <= k < |r| ==> r[k].title.Some? ==> r[k].title.value != "" && r[k].title.value != "-"
  {
    if |rows| == 0 then []
    else
      var rest := ParseSessions(rows[1..], daysISO);
      var kept := Seqs.Filter(rows[1..], SessionRowFn());
      if IsSessionRow(rows[0]) then
        assert ([rows[0]] + kept)[0] == rows[0] && ([rows[0]] + kept)[1..] == kept;
        RowSessions(rows[0], daysISO) + rest
      else
        rest
  }

  /** A row with at least six cells gives exactly five sessions, Monday to
      Friday, dated from the week header. */
  lemma FullRowGivesWeek(row: RawRow, daysISO: seq<string>)
    requires |row.cells| >= 6 && |daysISO| >= 5
    ensures |RowSessions(row, daysISO)| == 5
    ensures forall k :: 0 <= k < 5 ==>
      RowSessions(row, daysISO)[k].weekday == k + 1 && RowSessions(row, daysISO)[k].dateISO == daysISO[k]
  {
  }

  /** Cell `k + 1` of a session row becomes the session of weekday `k + 1`:
      a blank or "-" text gives no title, an empty class no class. */
  lemma RowCellMeaning(row: RawRow, daysISO: seq<string>, k: nat)
    requires k < |RowSessions(row, daysISO)|
    ensures k + 1 < |row.cells|
    ensures var s := RowSessions(row, daysISO)[k]; var cell := row.cells[k + 1];
      && s.weekday == k + 1 && s.hour == HourOf(row)
      && s.dateISO == (if k < |daysISO| then daysISO[k] else "")
      && (s.title.None? <==> Trim(cell.text) == "" || Trim(cell.text) == "-")
      && (s.title.Some? ==> s.title.value == Trim(cell.text))
      && (s.cssClass.None? <==> cell.classAttr.None? || cell.classAttr.value == "")
      && (s.cssClass.Some? ==> s.cssClass == cell.classAttr)
  {
    assert row.cells[1..][k] == row.cells[k + 1];
  }

  // ---- parseLegend ----

  /** What `\s*(.+)$` can do with the text after the colon: skip `w`
      white-space characters and match the non-empty rest, which must not
      contain a line terminator. */
  predicate DescSplit(rest: string, w: int) {
    0 <= w < |rest| && AllSpace(rest[..w]) && NoLineTerminator(rest[w..])
  }

  /** The capture of `(.+)$`: the greedy `\s*` takes the longest skip that
      still lets the rest match (`DescCaptureMeans`). */
  function DescCapture(rest: string): Option<string> {
    var l := LeadingSpace(rest);
    if l < |rest| then
      if NoLineTerminator(rest[l..]) then Some(rest[l..]) else None
    else if |rest| > 0 && !IsLineTerminator(rest[|rest| - 1]) then Some(rest[|rest| - 1..])
    else None
  }

  /** A skip past the first non-space character cannot be all white space. */
  lemma SkipStopsAtText(rest: string, l: nat)
    requires l < |rest| && !IsJsSpace(rest[l])
    ensures forall w :: l < w <= |rest| ==> !AllSpace(rest[..w])
  {
    forall w | l < w <= |rest| ensures !AllSpace(rest[..w]) {
      assert rest[..w][l] == rest[l];
    }
  }

  /** A line terminator at or after `l` is in every suffix starting before it. */
  lemma TerminatorStays(rest: string, l: nat)
    requires l <= |rest| && !NoLineTerminator(rest[l..])
    ensures forall w :: 0 <= w <= l ==> !NoLineTerminator(rest[w..])
  {
    var j :| 0 <= j < |rest[l..]| && IsLineTerminator(rest[l..][j]);
    forall w | 0 <= w <= l ensures !NoLineTerminator(rest[w..]) {
      assert rest[w..][l - w + j] == rest[l..][j];
    }
  }

  /** `DescCapture` is what `\s*(.+)$` captures: the rest after the longest
      white-space skip that leaves a non-empty, terminator-free remainder;
      `None` when no skip does. */
  lemma DescCaptureMeans(rest: string)
    ensures DescCapture(rest).Some? ==> exists w :: (DescSplit(rest, w) && DescCapture(rest).value == rest[w..]
                        && forall w' :: w < w' <= |rest| ==> !DescSplit(rest, w'))
    ensures DescCapture(rest).None? ==> forall w :: !DescSplit(rest, w)
  {
    var l := LeadingSpace(rest);
    if l < |rest| {
      SkipStopsAtText(rest, l);
      if NoLineTerminator(rest[l..]) {
        assert DescSplit(rest, l);
      } else {
        TerminatorStays(rest, l);
      }
    } else if |rest| > 0 && !IsLineTerminator(rest[|rest| - 1]) {
      assert DescSplit(rest, |rest| - 1);
    }
  }

  /** `/^([^:]+):\s*(.+)$/` matching with the colon at `p` and `w`
      characters skipped after it. */
  predicate ModuleLineSplit(line: string, p: int, w: int) {
    0 < p < |line| && line[p] == ':' && (forall q :: 0 <= q < p ==> line[q] != ':')
    && DescSplit(line[p + 1..], w)
  }

  /** Index of the first occurrence of `c`. */
  function FirstIndexOf(s: string, c: char): (r: Option<nat>)
    ensures r.Some? ==> r.value < |s| && s[r.value] == c && forall q :: 0 <= q < r.value ==> s[q] != c
    ensures r.None? ==> forall q :: 0 <= q < |s| ==> s[q] != c
  {
    if |s| == 0 then None
    else if s[0] == c then Some(0)
    else match FirstIndexOf(s[1..], c)
      case None => None
      case Some(q) => Some(q + 1)
  }

  /** `/^([^:]+):\s*(.+)$/` on a legend line, giving the trimmed pair
      (`ParseModuleLineMeans`). */
  function ParseModuleLine(line: string): Option<(string, string)> {
    match FirstIndexOf(line, ':')
    case None => None
    case Some(p) =>
      if p == 0 then None
      else match DescCapture(line[p + 1..])
        case None => None
        case Some(desc) => Some((Trim(line[..p]), Trim(desc)))
  }

  /** The colon of any match is the first colon of the line. */
  lemma SplitAtFirstColon(line: string, p: nat, p': int, w: int)
    requires FirstIndexOf(line, ':') == Some(p)
    ensures ModuleLineSplit(line, p', w) <==> p' == p && p > 0 && DescSplit(line[p + 1..], w)
  {
  }

  lemma NoColonNoSplit(line: string, p': int, w: int)
    requires FirstIndexOf(line, ':').None?
    ensures !ModuleLineSplit(line, p', w)
  {
  }

  /** A legend line gives a pair exactly when the regex matches; the pair
      is the trimmed text before the first colon and the trimmed capture of
      the greedy match after it. */
  lemma ParseModuleLineMeans(line: string)
    ensures ParseModuleLine(line).None? <==> forall p, w :: !ModuleLineSplit(line, p, w)
    ensures ParseModuleLine(line).Some? ==> exists p, w :: (ModuleLineSplit(line, p, w)
      && (forall w' :: w < w' ==> !ModuleLineSplit(line, p, w'))
      && ParseModuleLine(line).value == (Trim(line[..p]), Trim(line[p + 1..][w..])))
  {
    match FirstIndexOf(line, ':')
    case None =>
      forall p, w ensures !ModuleLineSplit(line, p, w) { NoColonNoSplit(line, p, w); }
    case Some(p) =>
      SplitsAtColon(line, p);
      if p > 0 {
        DescCaptureMeans(line[p + 1..]);
        if DescCapture(line[p + 1..]).Some? {
          ModuleLineWitness(line, p);
        }
      }
  }

  /** Every match splits at the first colon. */
  lemma SplitsAtColon(line: string, p: nat)
    requires FirstIndexOf(line, ':') == Some(p)
    ensures forall p', w :: ModuleLineSplit(line, p', w) <==> p' == p && p > 0 && DescSplit(line[p + 1..], w)
  {
    forall p', w ensures ModuleLineSplit(line, p', w) <==> p' == p && p > 0 && DescSplit(line[p + 1..], w) {
      SplitAtFirstColon(line, p, p', w);
    }
  }

  /** The greedy capture after the first colon is the match. */
  lemma ModuleLineWitness(line: string, p: nat)
    requires FirstIndexOf(line, ':') == Some(p) && p > 0 && DescCapture(line[p + 1..]).Some?
    ensures exists w :: (ModuleLineSplit(line, p, w)
      && (forall w' :: w < w' ==> !ModuleLineSplit(line, p, w'))
      && ParseModuleLine(line).value == (Trim(line[..p]), Trim(line[p + 1..][w..])))
  {
    var rest := line[p + 1..];
    SplitsAtColon(line, p);
    DescCaptureMeans(rest);
    var w :| DescSplit(rest, w) && DescCapture(rest).value == rest[w..]
             && forall w' :: w < w' <= |rest| ==> !DescSplit(rest, w');
    assert ModuleLineSplit(line, p, w);
    assert ParseModuleLine(line).value == (Trim(line[..p]), Trim(rest[w..]));
  }

  /** `/^([A-Z]):\s*(.+)$/` on the trimmed text of an absence-type span. */
  function ParseAbsenceSpan(text: string): (r: Option<(string, string)>)
    ensures r.Some? ==> |Trim(text)| >= 2 && IsAsciiUpper(Trim(text)[0]) && Trim(text)[1] == ':'
                        && r.value.0 == [Trim(text)[0]]
                        && DescCapture(Trim(text)[2..]).Some?
                        && r.value.1 == Trim(DescCapture(Trim(text)[2..]).value)
    ensures r.None? ==> |Trim(text)| < 2 || !IsAsciiUpper(Trim(text)[0]) || Trim(text)[1] != ':'
                        || DescCapture(Trim(text)[2..]).None?
  {
    var t := Trim(text);
    if |t| >= 2 && IsAsciiUpper(t[0]) && t[1] == ':' then
      match DescCapture(t[2..])
      case None => None
      case Some(desc) => Some(([t[0]], Trim(desc)))
    else None
  }

  /** Stores the pairs in order; a later line for the same key overwrites
      the value but keeps the key's first position. */
  function StorePairs(pairs: seq<Option<(string, string)>>): (r: AList<string>)
    ensures UniqueKeys(r)
  {
    if |pairs| == 0 then []
    else
      var acc := StorePairs(pairs[..|pairs| - 1]);
      match pairs[|pairs| - 1]
      case None => acc
      case Some(kv) => PutUnique(acc, kv.0, kv.1); Put(acc, kv.0, kv.1)
  }

  /** Some pair has key `k`. */
  predicate HasPairFor(pairs: seq<Option<(string, string)>>, k: string) {
    exists i :: 0 <= i < |pairs| && pairs[i].Some? && pairs[i].value.0 == k
  }

  /** No pair after position `i` has key `k`. */
  predicate NoLaterPair(pairs: seq<Option<(string, string)>>, i: nat, k: string) {
    forall j :: i < j < |pairs| ==> pairs[j].None? || pairs[j].value.0 != k
  }

  /** The last pair with key `k` has value `v`. */
  predicate LastPairIs(pairs: seq<Option<(string, string)>>, k: string, v: string) {
    exists i :: 0 <= i < |pairs| && pairs[i] == Some((k, v)) && NoLaterPair(pairs, i, k)
  }

  /** A key is stored exactly when some pair has it. */
  lemma {:induction false} StorePairsKeys(pairs: seq<Option<(string, string)>>, k: string)
    ensures Get(StorePairs(pairs), k).Some? <==> HasPairFor(pairs, k)
  {
    if |pairs| > 0 {
      StorePairsKeys(pairs[..|pairs| - 1], k);
      StorePairsStep(pairs, k);
      HasPairForStep(pairs, k);
    }
  }

  /** Some pair has key `k` exactly when an earlier one does or the last
      one does. */
  lemma HasPairForStep(pairs: seq<Option<(string, string)>>, k: string)
    requires |pairs| > 0
    ensures var last := pairs[|pairs| - 1];
      HasPairFor(pairs, k) <==> HasPairFor(pairs[..|pairs| - 1], k) || (last.Some? && last.value.0 == k)
  {
    var init := pairs[..|pairs| - 1];
    if HasPairFor(pairs, k) {
      var i :| 0 <= i < |pairs| && pairs[i].Some? && pairs[i].value.0 == k;
      if i < |init| {
        assert init[i] == pairs[i];
      }
    }
    if HasPairFor(init, k) {
      var i :| 0 <= i < |init| && init[i].Some? && init[i].value.0 == k;
      assert pairs[i] == init[i];
    }
  }

  /** The value kept for key `k`: that of the last pair with that key. */
  lemma {:induction false} StorePairsLastWins(pairs: seq<Option<(string, string)>>, k: string)
    ensures Get(StorePairs(pairs), k).Some? ==> LastPairIs(pairs, k, Get(StorePairs(pairs), k).value)
  {
    if |pairs| > 0 {
      var init := pairs[..|pairs| - 1];
      StorePairsLastWins(init, k);
      StorePairsStep(pairs, k);
      var last := pairs[|pairs| - 1];
      if last.Some? && last.value.0 == k {
        LastPairAtEnd(pairs, k);
      } else if Get(StorePairs(init), k).Some? {
        LastPairExtend(pairs, k, Get(StorePairs(init), k).value);
      }
    }
  }

  /** A final pair with key `k` is the last one for `k`. */
  lemma LastPairAtEnd(pairs: seq<Option<(string, string)>>, k: string)
    requires |pairs| > 0 && pairs[|pairs| - 1].Some? && pairs[|pairs| - 1].value.0 == k
    ensures LastPairIs(pairs, k, pairs[|pairs| - 1].value.1)
  {
    assert NoLaterPair(pairs, |pairs| - 1, k);
  }

  /** A final pair with another key leaves the last pair for `k` as it was. */
  lemma LastPairExtend(pairs: seq<Option<(string, string)>>, k: string, v: string)
    requires |pairs| > 0 && (pairs[|pairs| - 1].None? || pairs[|pairs| - 1].value.0 != k)
    requires LastPairIs(pairs[..|pairs| - 1], k, v)
    ensures LastPairIs(pairs, k, v)
  {
    var init := pairs[..|pairs| - 1];
    var i :| 0 <= i < |init| && init[i] == Some((k, v)) && NoLaterPair(init, i, k);
    assert pairs[i] == init[i];
    assert NoLaterPair(pairs, i, k) by {
      forall j | i < j < |pairs| ensures pairs[j].None? || pairs[j].value.0 != k {
        if j < |init| {
          assert pairs[j] == init[j];
        }
      }
    }
  }

  /** One more pair: its key gets its value, other keys keep theirs. */
  lemma StorePairsStep(pairs: seq<Option<(string, string)>>, k: string)
    requires |pairs| > 0
    ensures var last := pairs[|pairs| - 1]; var init := pairs[..|pairs| - 1];
      && (forall i :: 0 <= i < |init| ==> init[i] == pairs[i])
      && (last.Some? && last.value.0 == k ==> Get(StorePairs(pairs), k) == Some(last.value.1))
      && (!(last.Some? && last.value.0 == k) ==> Get(StorePairs(pairs), k) == Get(StorePairs(init), k))
  {
  }

  /** The non-empty trimmed pieces of the modules cell, in order. */
  function LegendLines(segments: seq<string>): (r: seq<string>)
    ensures forall i :: 0 <= i < |r| ==> r[i] != "" && Trim(r[i]) == r[i]
  {
    if |segments| == 0 then []
    else
      var t := Trim(segments[0]);
      TrimOfTrimmed(t);
      if t == "" then LegendLines(segments[1..]) else [t] + LegendLines(segments[1..])
  }

  /** `parseLegend`, modules part: `segments` are the pieces of the modules
      cell between `<br>` tags, with the tags removed. */
  function ParseLegendModules(segments: seq<string>): (r: AList<string>)
    ensures UniqueKeys(r)
  {
    var lines := LegendLines(segments);
    StorePairs(seq(|lines|, i requires 0 <= i < |lines| => ParseModuleLine(lines[i])))
  }

  /** `parseLegend`, absence part: `spans` are the texts of the spans of the
      absence-types cell. */
  function ParseLegendAbsences(spans: seq<string>): (r: AList<string>)
    ensures UniqueKeys(r)
    ensures forall i :: 0 <= i < |r| ==> |r[i].0| == 1 && IsAsciiUpper(r[i].0[0])
  {
    var pairs := seq(|spans|, i requires 0 <= i < |spans| => ParseAbsenceSpan(spans[i]));
    var r := StorePairs(pairs);
    forall i | 0 <= i < |r| ensures |r[i].0| == 1 && IsAsciiUpper(r[i].0[0]) {
      GetEntry(r, i);
      StorePairsLastWins(pairs, r[i].0);
    }
    r
  }

  // ---- parseIdentity ----

  /** `\w{7,9}[A-Z]` spanning the whole of `t`. */
  predicate DniToken(t: string) {
    8 <= |t| <= 10 && IsAsciiUpper(t[|t| - 1]) && forall i :: 0 <= i < |t| - 1 ==> IsWordChar(t[i])
  }

  /** `^(.*)\s+(\w{7,9}[A-Z])$` with the first group of length `k` and the
      token starting at `d`. */
  predicate IdentitySplit(s: string, k: int, d: int) {
    0 <= k < d <= |s| && NoLineTerminator(s[..k]) && AllSpace(s[k..d]) && DniToken(s[d..])
  }

  /** Where the token starts for a first group of length `k`; it can only
      start 8, 9 or 10 characters before the end. */
  function TokenStart(s: string, k: nat): Option<nat> {
    if |s| >= 10 && IdentitySplit(s, k, |s| - 10) then Some(|s| - 10)
    else if |s| >= 9 && IdentitySplit(s, k, |s| - 9) then Some(|s| - 9)
    else if |s| >= 8 && IdentitySplit(s, k, |s| - 8) then Some(|s| - 8)
    else None
  }

  lemma TokenStartMeans(s: string, k: nat)
    ensures TokenStart(s, k).Some? ==> IdentitySplit(s, k, TokenStart(s, k).value)
    ensures TokenStart(s, k).None? ==> forall d :: !IdentitySplit(s, k, d)
  {
    forall d | IdentitySplit(s, k, d) ensures TokenStart(s, k).Some? {
      SplitFound(s, k, d);
    }
  }

  /** A split at any position makes `TokenStart` find one. */
  lemma SplitFound(s: string, k: nat, d: int)
    requires IdentitySplit(s, k, d)
    ensures TokenStart(s, k).Some?
  {
    SplitTokenLength(s, k, d);
    if d == |s| - 10 {
      assert |s| >= 10 && IdentitySplit(s, k, |s| - 10);
    } else if d == |s| - 9 {
      assert |s| >= 9 && IdentitySplit(s, k, |s| - 9);
    } else {
      assert |s| >= 8 && IdentitySplit(s, k, |s| - 8);
    }
  }

  /** The token is 8 to 10 characters long. */
  lemma SplitTokenLength(s: string, k: int, d: int)
    requires IdentitySplit(s, k, d)
    ensures |s| - 10 <= d <= |s| - 8
  {
    assert |s[d..]| == |s| - d;
  }

  /** The greedy `(.*)`: the longest first group that lets the rest match,
      searched downwards from `k`. */
  function LongestName(s: string, k: nat): (r: Option<(nat, nat)>)
    requires k <= |s|
    ensures r.Some? ==> r.value.0 <= k && IdentitySplit(s, r.value.0, r.value.1)
    ensures r.Some? ==> forall k', d :: r.value.0 < k' <= k ==> !IdentitySplit(s, k', d)
    ensures r.None? ==> forall k', d :: 0 <= k' <= k ==> !IdentitySplit(s, k', d)
    decreases k
  {
    TokenStartMeans(s, k);
    match TokenStart(s, k)
    case Some(d) => Some((k, d))
    case None => if k == 0 then None else LongestName(s, k - 1)
  }

  /** A token has no space to trim. */
  lemma DniTrimmed(t: string)
    requires DniToken(t)
    ensures Trim(t) == t && DniToken(Trim(t))
  {
    assert IsWordChar(t[0]) && IsAsciiUpper(t[|t| - 1]);
    TrimOfTrimmed(t);
  }

  function RemoveCommas(s: string): (r: string)
    ensures forall i :: 0 <= i < |r| ==> r[i] != ','
  {
    if |s| == 0 then [] else (if s[0] == ',' then [] else [s[0]]) + RemoveCommas(s[1..])
  }

  /** Some split of `s` into a name and a DNI token exists. */
  ghost predicate HasSplit(s: string) {
    exists k, d :: IdentitySplit(s, k, d)
  }

  /** The split with the longest first group, as the greedy `(.*)` takes. */
  ghost predicate GreatestSplit(s: string, k: int, d: int) {
    IdentitySplit(s, k, d) && forall k', d' :: k < k' ==> !IdentitySplit(s, k', d')
  }

  /** `parseIdentity` over the trimmed, non-empty `h2` texts of the title. */
  function ParseIdentity(titles: seq<string>): (r: Identity)
    ensures var s := RemoveCommas(if |titles| > 0 then titles[0] else "");
      HasSplit(s) ==>
        exists k, d :: GreatestSplit(s, k, d) && 0 <= k <= d <= |s| && r.fullName == Trim(s[..k]) && r.dni == s[d..]
    ensures var s := RemoveCommas(if |titles| > 0 then titles[0] else "");
      !HasSplit(s) ==> r.fullName == Trim(if |titles| > 0 then titles[0] else "") && r.dni == ""
    ensures r.group.None? <==> |titles| < 2 || titles[1] == ""
    ensures r.group.Some? ==> r.group.value == titles[1]
    ensures r.dni != "" ==> DniToken(r.dni)
  {
    var first := if |titles| > 0 then titles[0] else "";
    var second := if |titles| > 1 then titles[1] else "";
    var group := if second == "" then None else Some(second);
    var s := RemoveCommas(first);
    match LongestName(s, |s|)
    case Some((k, d)) =>
      DniTrimmed(s[d..]);
      LongestSplitIsGreatest(s, k, d);
      Identity(Trim(s[..k]), Trim(s[d..]), group)
    case None =>
      NoLongestNoSplit(s);
      Identity(Trim(first), "", group)
  }

  /** The split `LongestName` finds over the whole text has the longest
      first group of all splits. */
  lemma LongestSplitIsGreatest(s: string, k: nat, d: nat)
    requires LongestName(s, |s|) == Some((k, d))
    ensures GreatestSplit(s, k, d) && HasSplit(s) && k <= d <= |s|
  {
    forall k', d' | k < k' ensures !IdentitySplit(s, k', d') {
      if k' > |s| {
        assert !(k' < d' <= |s|);
      }
    }
  }

  /** When `LongestName` finds nothing there is no split at all. */
  lemma NoLongestNoSplit(s: string)
    requires LongestName(s, |s|).None?
    ensures !HasSplit(s)
  {
    forall k, d ensures !IdentitySplit(s, k, d) {
      if k > |s| {
        assert !(k < d <= |s|);
      }
    }
  }

  // ---- buildSnapshot ----

  /** `buildSnapshot`: the inputs unchanged, plus the aggregate of the weeks
      and none of the fields the reto distribution adds. */
  function BuildSnapshot(weeks: seq<Week>, identity: Identity, legend: Legend, percentages: Percentages): (r: Snapshot)
    ensures r.weeks == weeks && r.identity == identity && r.legend == legend && r.percentages == percentages
    ensures r.aggregated == Aggregation.AggregateStats(weeks)
    ensures r.retos.None? && r.coeficientes.None? && r.moduleCalculations.None?
  {
    Snapshot(identity, legend, percentages, weeks, Aggregation.AggregateStats(weeks), None, None, None)
  }
}
