# Faltas-Cebanc attendance core, modelled in Dafny

Faltas-Cebanc is a desktop and web app for a student of the CEBANC school.
It scrapes the school's attendance portal and shows the absences ("faltas").
They are broken down by week, month and module ("módulo"), projected with
what-if calculations, and shown with the absences of "reto" (group-project)
modules redistributed onto the ordinary modules. This project models the
part of the app that holds its logic. It is written in TypeScript (Next.js)
and Rust (the Tauri shell). The model covers:

- **The statistics engine.** Counting and percentage helpers; aggregation of
  the scraped sessions into per-module counts; the weekly, monthly, KPI and
  selected-week series; redistribution of reto absences onto ordinary
  modules by hour-weighted coefficients; and the what-if projections of the
  calculator. The pages and hooks that repeat pieces of it inline are
  modelled too, and proved equal to the shared functions where they are.
- **Dates and weeks.** Monday enumeration, `dd-mm-yyyy` and `yyyy-mm-dd`
  conversion, the academic-year range, and the week picked by default and by
  navigation.
- **The timetable page.** Run-length merging of the 6×5 timetable, and the
  hours per module.
- **Versions.** Dotted-version comparison, and the policy that blocks old
  clients.
- **Credentials.** The XOR-and-base64 obfuscation of stored credentials,
  with the UTF-8 and base64 layers it rests on.
- **Validators and sanitisers.** The login body, `Set-Cookie` parsing,
  classification of the login redirect, the login route's status codes,
  notices, the app-config whitelist and the config-status reasons.
- **Theme.** The theme-configuration algebra (presets, overrides, delete and
  reset), and the OKLCH validator and classifier.
- **Small state machines.** The logger's ring buffer, the toast queue, the
  notice-dismissal map, the number-input rule, the select menu, external-link
  gating, and the desktop shell's process slot.

Everything is modelled as immutable datatypes and pure functions.

- JavaScript objects become insertion-ordered association lists (`Assoc`).
- Numbers that may be `NaN` or infinite are `Num.Number`. Other numbers are
  `real`.
- `toFixed(2)` and `Math.round` are `Num.Round2` and `Num.MathRound`
  (round half up).
- Regular expressions are explicit scanners. The match they find is the
  first, at the least index.
- The clock, `Math.random`, storage, the network and the DOM are parameters.
  A result read from them is an argument of the function that uses it.

Each file is one module. It follows one source file, or a small group of
them, and its header comment names them. The shared modules are:

- `Wrappers`: `Option` and `Result`.
- `JsString`: JavaScript string operations on `seq<char>`.
- `Assoc`: ordered maps.
- `Num`: numbers and rounding.
- `Seqs`: sums and filters.
- `JsonText`: a JSON reader and writer.
- `Utf8` and `Base64`: the encodings of RFC 3629 and RFC 4648.
- `SnapshotModel`: the snapshot's types.

## Model

| member | source | states |
|---|---|---|
| Calculations.SumRecordValuesExcludingJ | lib/utils/calculations.ts:5-11 | a missing record sums to 0; a record of finite non-negative values sums to a non-negative total |
| Calculations.SumIgnoresJ | lib/utils/calculations.ts:8 | setting the value under "J" (justified) never changes the sum |
| Calculations.SumIgnoresNonFinite | lib/utils/calculations.ts:9 | adding a key whose value is not finite never changes the sum |
| Calculations.NonJCountPut | lib/utils/calculations.ts:7-10 | replacing one count changes the sum by the difference, except under "J", which never changes it |
| Calculations.SumOfCounts | lib/utils/calculations.ts:5-11 | on a record of whole counts the sum is the total of the counts of every code other than "J" |
| Calculations.CalcPercent | lib/utils/calculations.ts:13-17 | the percentage lies in [0, 100]; it is 0 for a total of 0 or less and for no absences, and 100 when the absences reach the total |
| Calculations.CalcPercentNearRatio | lib/utils/calculations.ts:15-16 | for a positive total the percentage is within half a hundredth of abs/total×100 |
| Calculations.RoundedPercentBounds | lib/utils/calculations.ts:16 | rounding to two decimals keeps a ratio in [0, 100] and keeps it at or past either bound |
| Calculations.CalcPercentMonotone | lib/utils/calculations.ts:13-17 | for a fixed total, more absences never give a smaller percentage |
| Calculations.FirstRetoToken | lib/utils/calculations.ts:22 | finds the first digit-letter-letter-digit token not bordered by a letter or digit, and there is none before it |
| Calculations.IsRetoModule | lib/utils/calculations.ts:19-23 | a module is a reto exactly when "code label" holds such a token |
| Calculations.ExtractGroupToken | lib/utils/calculations.ts:25-29 | there is a token exactly when the module is a reto, and it is the first one, upper-cased |
| Calculations.RetoLabelDefault | lib/utils/calculations.ts:19-29 | a missing label gives the same answers as a label equal to the code |
| Calculations.ExtractAbsenceCode | lib/utils/calculations.ts:31-35 | no code for a missing or empty class; otherwise a code exactly when "falta_" occurs, and it is the run of word characters after the first occurrence |
| Aggregation.AllSessions | lib/http/scraper.ts:119-120 | the sessions are visited week by week: each week's sessions sit, in order, right after those of the weeks before it, there are as many as all weeks hold, and a session is visited exactly when some week holds it |
| Aggregation.CodeOf | lib/http/scraper.ts:125-126 | a session contributes a code exactly when `extractAbsenceCode` of its class gives a non-empty one |
| Aggregation.BumpFacts | lib/http/scraper.ts:127-128 | counting one more absence raises that code's count by one and the total of the counts by one, and leaves every other code alone |
| Aggregation.AggregateStats | lib/http/scraper.ts:112-134 | the result is well formed: keys are unique, no module has more absences than classes given, and each absence total is the sum over the modules of that code's count |
| Aggregation.AddSessionWellformed | lib/http/scraper.ts:120-129 | one session keeps the aggregate well formed |
| Aggregation.AggregateWellformed | lib/http/scraper.ts:119-131 | aggregating any list of sessions gives a well-formed aggregate |
| Aggregation.AggregateCounts | lib/http/scraper.ts:119-131 | a module is present exactly when a titled session has its key; its classes given is the number of such sessions, its count for a code the number of those with that code, and each total the number of sessions with the code |
| Aggregation.CountKeyCodeBound | lib/http/scraper.ts:124-129 | a module never has more absences of one code than classes given |
| Aggregation.UntitledIgnored | lib/http/scraper.ts:121 | a session with a missing or empty title changes nothing |
| Aggregation.AggregateStatsCounts | lib/http/scraper.ts:112-134 | the counts over a list of weeks are the counts over all their sessions |
| Scraper.FirstDatePattern | lib/http/scraper.ts:18 | finds the first place where `dd-mm-yyyy` occurs, and there is none before it |
| Scraper.NormalizeDateRewrites | lib/http/scraper.ts:16-21 | the first `dd-mm-yyyy` occurrence is rewritten to `yyyy-mm-dd`, which is ISO-shaped |
| Scraper.NormalizeDateUnchanged | lib/http/scraper.ts:19 | text without a `dd-mm-yyyy` occurrence is returned unchanged |
| Scraper.SessionOf | lib/http/scraper.ts:45-54 | a cell becomes a session with weekday idx+1 and date daysISO[idx] or ""; the title is missing exactly when the trimmed text is empty or "-", otherwise it is the trimmed text; the class is missing exactly when the attribute is missing or empty |
| Scraper.DaySessions | lib/http/scraper.ts:44-55 | a row gives one session per day cell, at most five, each the session of its cell |
| Scraper.ParseSessions | lib/http/scraper.ts:36-58 | the sessions are those of the rows whose header is a number, concatenated in row order; every one has a weekday from 1 to 5 and a title that is never empty or "-" |
| Scraper.RowCellMeaning | lib/http/scraper.ts:41-55 | session k of a row comes from cell k+1: its hour is the row's, its weekday k+1, its date daysISO[k] or "", and its title follows the cell's trimmed text |
| Scraper.DescCaptureMeans | lib/http/scraper.ts:77 | the description capture of `\s*(.+)$` is the longest split allowed, and there is none when no split is allowed |
| Scraper.ParseModuleLineMeans | lib/http/scraper.ts:77-78 | a legend line parses exactly when it splits as "CODE: Desc" at its first colon with a non-empty code, and gives the trimmed code and the trimmed description |
| Scraper.ParseAbsenceSpan | lib/http/scraper.ts:85-87 | an absence span parses exactly when its trimmed text is an upper-case letter, a colon and a description, and gives the letter and the trimmed description |
| Scraper.StorePairs | lib/http/scraper.ts:76-79 | the legend map built from the parsed lines has unique keys |
| Scraper.StorePairsKeys | lib/http/scraper.ts:76-79 | a code is in the legend exactly when some line parsed with it |
| Scraper.StorePairsLastWins | lib/http/scraper.ts:78 | the description stored for a code is the one from the last line with that code |
| Scraper.LegendLines | lib/http/scraper.ts:72-75 | the legend lines are trimmed and none is empty |
| Scraper.ParseLegendModules | lib/http/scraper.ts:60-80 | the module legend has unique keys |
| Scraper.ParseLegendAbsences | lib/http/scraper.ts:82-88 | the absence legend has unique keys, each a single upper-case letter |
| Scraper.TokenStartMeans | lib/http/scraper.ts:9 | the identity pattern's split is found exactly when one exists |
| Scraper.SplitTokenLength | lib/http/scraper.ts:9 | the DNI token is 8 to 10 characters: 7 to 9 word characters and an upper-case letter |
| Scraper.LongestName | lib/http/scraper.ts:9 | the greedy `(.*)` takes the longest name that leaves a valid split |
| Scraper.ParseIdentity | lib/http/scraper.ts:5-14 | when the comma-free first title splits into a name, spaces and a DNI token, the name is the trimmed longest such first part and the DNI the token; otherwise the name is the trimmed first title and the DNI empty; the group is missing exactly when there is no non-empty second title, and is that title otherwise |
| Scraper.BuildSnapshot | lib/http/scraper.ts:162-165 | weeks, identity, legend and percentages pass through unchanged, and the aggregate is `aggregateStats(weeks)` |
| SnapshotService.ModuleRows | lib/services/snapshotService.ts:19-28 | every row belongs to a module of the snapshot that passes the module filter, and there are never more rows than modules |
| SnapshotService.BuildModulesTable | lib/services/snapshotService.ts:14-29 | every row's key is a module of the snapshot that passes the filter |
| SnapshotService.ModuleRowsAll | lib/services/snapshotService.ts:19-21 | for "all" there is one row per module, in order, each built from its module |
| SnapshotService.ModuleRowsMissing | lib/services/snapshotService.ts:20 | a filter naming no module gives no rows |
| SnapshotService.ModuleRowsOne | lib/services/snapshotService.ts:20-28 | a filter naming a module gives exactly that module's row |
| SnapshotService.ModulesTableRows | lib/services/snapshotService.ts:14-29 | for "all", one row per module with its classes and absences text; otherwise at most one row, present exactly when the filtered module exists |
| SnapshotService.AbsencePartsAll | lib/services/snapshotService.ts:24-26 | for "all" every code of the module is listed as `code:count`, in order |
| SnapshotService.AbsencePartsMissing | lib/services/snapshotService.ts:25 | a code filter the module lacks lists nothing |
| SnapshotService.AbsencesTextMeaning | lib/services/snapshotService.ts:24-27 | for "all" the absences text joins every `code:count` with two spaces; for one code it is that code's `code:count`, or empty |
| SnapshotService.BuildTopLine | lib/services/snapshotService.ts:31-36 | the line starts with the week count and " semanas · ", and ends with the last week's end; with no weeks both dates are empty |
| SnapshotService.TopLineCount | lib/services/snapshotService.ts:35 | the digits before the first space read back as the number of weeks |
| SnapshotService.BuildWeeklySeries | lib/services/snapshotService.ts:38-57 | one entry per week, whose `__index` is the week's position |
| SnapshotService.CountedCodesMeaning | lib/services/snapshotService.ts:44-52 | the codes counted for a week are one per session that has a code and passes both filters, each code as often as such sessions carry it |
| SnapshotService.TallyAllMeaning | lib/services/snapshotService.ts:44-53 | the reduce keeps the label, counts every code into `total`, and gives each code its number of occurrences; the counters sum to `total` |
| SnapshotService.WeeklySeriesMeaning | lib/services/snapshotService.ts:43-56 | each entry's label is the week's start, `__index` is its position, each code's counter is the number of counted sessions with it, and `total` is both the number of counted sessions and the sum of the counters |
| SnapshotService.BumpAllMeaning | lib/services/snapshotService.ts:73 | counting keys one by one gives each key its number of occurrences, and the counts sum to the number of keys |
| SnapshotService.MonthOf | lib/services/snapshotService.ts:72 | the month is the first seven characters of the date, or the whole date when shorter |
| SnapshotService.CountedMonthsMeaning | lib/services/snapshotService.ts:65-74 | one month per counted session, each month as often as the counted sessions in it |
| SnapshotService.BuildMonthlySeries | lib/services/snapshotService.ts:59-79 | one entry per month in the tally, the months distinct and in strictly ascending order |
| SnapshotService.ByMonthMeaning | lib/services/snapshotService.ts:64-75 | the tally holds exactly the months with a counted session, each with its number of counted sessions, and sums to the number of counted sessions |
| SnapshotService.MonthlyTotals | lib/services/snapshotService.ts:76-78 | each entry's total is the positive number of counted sessions in its month |
| SnapshotService.MonthlyCovers | lib/services/snapshotService.ts:64-78 | a month has an entry exactly when some counted session falls in it |
| SnapshotService.MonthlySum | lib/services/snapshotService.ts:59-79 | the totals sum to the number of sessions that have a code and pass both filters |
| SnapshotService.KpiFold | lib/services/snapshotService.ts:86-96 | every counted absence is in the last thirty days or before them |
| SnapshotService.KpiFoldMeaning | lib/services/snapshotService.ts:84-96 | the fold counts every session with a code, the recent ones among them, and each module (`?` for no title) by its number of such sessions |
| SnapshotService.TopOf | lib/services/snapshotService.ts:99-100 | the first three entries of the sorted counts, or all when fewer |
| SnapshotService.BuildKpis | lib/services/snapshotService.ts:81-103 | total = last30 + prev30; delta = max(0, last30 − prev30); at most three leading modules, with non-increasing counts |
| SnapshotService.KpisCounts | lib/services/snapshotService.ts:84-96 | the total is the number of sessions with a code, and last30 the number of those dated no earlier than thirty days before now |
| SnapshotService.TopModulesCounts | lib/services/snapshotService.ts:97-100 | the leading modules are distinct, each listed with its number of absences, never zero |
| SnapshotService.ModuleCountEntry | lib/services/snapshotService.ts:93-94 | every module count of the fold is that module's number of absences, never zero |
| SnapshotService.TopModulesDominate | lib/services/snapshotService.ts:97-100 | a module with absences that is not listed implies that three are listed, and it has no more absences than the third |
| SnapshotService.DefaultIndex | lib/services/snapshotService.ts:111 | a given index is kept; with none, the last week is chosen, and nothing when there are no weeks |
| SnapshotService.BuildSelectedWeek | lib/services/snapshotService.ts:105-122 | there is a result exactly when the index is in range; it keeps the week's dates and holds exactly the week's sessions that pass both filters |
| SnapshotService.SelectedWeekSessions | lib/services/snapshotService.ts:114-121 | the kept sessions are in the week's order, and with both filters "all" the week comes back unchanged |
| Seqs.SortDescStable | lib/services/snapshotService.ts:98 | sorting largest key first keeps the elements of any one key in their input order, as the stable `Array.prototype.sort` does |
| RetoDistribution.KeysWherePartition | lib/server/snapshot.ts:64-73 | the reto and non-reto keys each keep the module order, and every module key is on exactly the side its reto test picks |
| RetoDistribution.PartitionLength | lib/server/snapshot.ts:67-73 | together the two sides hold every module key once |
| RetoDistribution.Targets | lib/server/snapshot.ts:98-102 | the targets are all non-reto modules, unless the reto's entry flags some module; then they are exactly the flagged non-reto modules, in order |
| RetoDistribution.HoursOf | lib/server/snapshot.ts:105 | a module's hours are clamped at 0 |
| RetoDistribution.Coefficients | lib/server/snapshot.ts:104-118 | one coefficient per target, in order, each in [0, 1] and within half a hundredth of the target's share of the hours, or of an equal share when no target has hours |
| RetoDistribution.ShareInUnit | lib/server/snapshot.ts:109-117 | each unrounded share lies in [0, 1] |
| RetoDistribution.HoursWithinSum | lib/server/snapshot.ts:105-106 | no target has more hours than the sum |
| RetoDistribution.SharesSumToOne | lib/server/snapshot.ts:109-117 | the unrounded shares of the targets add up to 1 |
| RetoDistribution.DistributeEffect | lib/server/snapshot.ts:120-131 | sharing out a reto's absences changes no module's classes and no code other than "F", and adds to "F" exactly each target's rounded portion |
| RetoDistribution.AddFFaltas | lib/server/snapshot.ts:128-129 | adding d absences under "F" raises a module's non-"J" total by d |
| RetoDistribution.DistributeFaltas | lib/server/snapshot.ts:120-131 | a module's non-"J" total grows by exactly the portion it receives |
| RetoDistribution.AddedOutside | lib/server/snapshot.ts:121 | a module that is not a target receives nothing |
| RetoDistribution.DistributeOneEffect | lib/server/snapshot.ts:93-135 | one reto leaves every module's classes and every code but "F" unchanged, and adds to "F" what it hands out |
| RetoDistribution.DistributeRetosEffect | lib/server/snapshot.ts:93-136 | the loop over the retos adds to each module's "F" the sum of what each reto hands it, and changes nothing else |
| RetoDistribution.DistributeRetosFaltas | lib/server/snapshot.ts:93-136 | the loop raises each module's non-"J" total by what the retos hand it |
| RetoDistribution.AddedByRetosOutside | lib/server/snapshot.ts:98-102 | a reto module, or any key outside the non-reto list, receives nothing |
| RetoDistribution.RoundTwice | lib/server/snapshot.ts:164 | rounding to two decimals twice is rounding once |
| RetoDistribution.WholeRoundTwice | lib/server/snapshot.ts:163 | a whole number of classes rounded twice is itself |
| RetoDistribution.Calcs | lib/server/snapshot.ts:138-175 | one summary per non-reto module, in order, each that module's summary |
| RetoDistribution.BuildSnapshotWithRetoDistributionAsWritten | lib/server/snapshot.ts:54-178 | the result keeps identity, legend, percentages, weeks and absence totals, takes the distributed modules, records the coefficient tables and has a summary for exactly the non-reto modules, each counting as direct the module's own non-"J" absences plus everything the retos handed it |
| RetoDistribution.BuildSnapshotWithRetoDistributionCorrected | lib/server/snapshot.ts:159-162 | corrected: the same snapshot, except that each summary counts as direct only the module's own non-"J" absences, so a distributed absence is counted once |
| RetoDistribution.AsWrittenSummaries | lib/server/snapshot.ts:159-162 | as written, every summary's direct absences are the module's own plus what the retos handed it |
| RetoDistribution.CorrectedSummaries | lib/server/snapshot.ts:159-162 | corrected, every summary's direct absences are the module's own |
| RetoDistribution.StatsAtUnique | lib/server/snapshot.ts:139 | a module read from an aggregate with one count per code has one count per code |
| RetoDistribution.DistributeAllFaltas | lib/server/snapshot.ts:93-136 | after the whole pass a module's non-"J" total is its own plus what the retos hand it |
| RetoDistribution.DistributeAllMeaning | lib/server/snapshot.ts:93-136 | the whole pass changes no classes and no code but "F", and adds to "F" what the retos hand out |
| RetoDistribution.DerivedNonNegative | lib/server/snapshot.ts:140-157 | derived absences and derived classes are never negative |
| RetoDistribution.SummaryMeaning | lib/server/snapshot.ts:159-174 | a summary holds the direct absences, the derived ones rounded, and their rounded sum; classes likewise; the derived figures are not negative |
| RetoDistribution.CalcsDirect | lib/server/snapshot.ts:160-168 | a summary's direct absences are the non-"J" total of the modules it reads |
| RetoDistribution.AsWrittenDirectIncludesDistributed | lib/server/snapshot.ts:159-162 | as written, a module's direct absences are its own plus everything the retos handed it |
| RetoDistribution.CorrectedDirectIsOwn | lib/server/snapshot.ts:159-162 | corrected, a module's direct absences are its own non-"J" absences only |
| RetoDistribution.ExampleDistribution | lib/server/snapshot.ts:98-131 | a reto with two "F" absences and one ordinary module with no hours hands both absences to that module, with coefficient 1 |
| RetoDistribution.DoubleCountExample | lib/server/snapshot.ts:159-172 | in that example the as-written total for the ordinary module is 4 absences, the corrected one 2 |
| CalculateUtils.GetModuleBaseStats | lib/server/calculateUtils.ts:6-14 | with a summary, classes are its session fields (missing ones 0) and absences its `totalFaltas` when present, even 0, else `sumarFaltas` of the counts; without one, the aggregate's `classesGiven` and `sumarFaltas` of the counts |
| CalculateUtils.GetModuleBaseStatsCorrected | lib/server/calculateUtils.ts:8-10 | reading the attendance fields the summaries carry changes only the classes, and nothing for a module without a summary |
| CalculateUtils.SumGeneral | lib/server/calculateUtils.ts:16-25 | with summaries, the general sessions add up the summaries' direct and derived session fields and the absences their `totalFaltas`; without, the sessions are the sum of `classesGiven` and the absences are `sumarFaltas` of the absence totals |
| CalculateUtils.SumGeneralCorrected | lib/server/calculateUtils.ts:18-20 | reading the attendance fields changes only the session total, and nothing without summaries |
| CalculateUtils.BaseFor | lib/server/calculateUtils.ts:29-36 | the loop gives exactly the listed codes an entry, each that module's base figures and label |
| CalculateUtils.BuildBaseByModule | lib/server/calculateUtils.ts:27-38 | one entry per aggregated module and no other key, each its base figures and label |
| CalculateUtils.ComputeRetoProjection | lib/server/calculateUtils.ts:40-48 | current is the module's percentage; with nothing added the projection equals it, otherwise the module's own figures count twice and the weighted addition once |
| CalculateUtils.PercentOfDoubled | lib/server/calculateUtils.ts:43-46 | doubling both figures leaves the percentage unchanged |
| CalculateUtils.EntryHours | lib/server/calculateUtils.ts:101 | an entry's hours are never negative |
| CalculateUtils.ZeroDeltas | lib/server/calculateUtils.ts:77-79 | every module starts with a zero delta, and no other key has one |
| CalculateUtils.ModuleRowOf | lib/server/calculateUtils.ts:126-151 | a row keeps code, label and base figures; the projection is base plus delta; each delta is projected minus base |
| CalculateUtils.ByModule | lib/server/calculateUtils.ts:126-151 | one row per module, in order, each built from its base entry and delta |
| CalculateUtils.GeneralOf | lib/server/calculateUtils.ts:162-184 | the general projection is the base totals plus the module deltas plus the general extras; each delta is projected minus base |
| CalculateUtils.AddToModuleGet | lib/server/calculateUtils.ts:83-92 | adding to a module shifts only that module's delta, by the positive sessions and absences, and only when it has one |
| CalculateUtils.SpreadGet | lib/server/calculateUtils.ts:116-120 | a reto entry's coefficient table shifts each module by the hours times its coefficient, when positive |
| CalculateUtils.PlanStepMeaning | lib/server/calculateUtils.ts:100-122 | one entry shifts each module's delta by what that entry adds to it, and the general extras by its general part |
| CalculateUtils.RetoStepGet | lib/server/calculateUtils.ts:113-120 | a reto entry adds its hours to its own code and, weighted, to the modules of its table |
| CalculateUtils.PlanLoopMeaning | lib/server/calculateUtils.ts:100-122 | the whole loop shifts each delta by the sum over the entries of what each adds, and the extras likewise |
| CalculateUtils.PlanDeltaOf | lib/server/calculateUtils.ts:77-122 | each aggregated module ends with the sum of what the entries add to it |
| CalculateUtils.PlanByModuleMeaning | lib/server/calculateUtils.ts:126-151 | row i is the i-th module with its base figures, shifted by what the entries add to it |
| CalculateUtils.EmptyPlanChangesNothing | lib/server/calculateUtils.ts:73-187 | with no entries every projection equals its base and every delta is 0 |
| CalculateUtils.ZeroDeltasSum | lib/server/calculateUtils.ts:153-160 | the initial deltas sum to 0 |
| CalculateUtils.SpreadKeys | lib/server/calculateUtils.ts:84 | only modules already keyed are touched; no key is added |
| CalculateUtils.PlanLoopKeys | lib/server/calculateUtils.ts:83-122 | the loop keeps the keys of the deltas |
| CalculateUtils.ZeroDeltasKeys | lib/server/calculateUtils.ts:77-79 | the deltas are keyed by the module codes, in order |
| CalculateUtils.DeltasSumFrom | lib/server/calculateUtils.ts:153-160 | the reduce over the deltas sums what the entries add to each module |
| CalculateUtils.PlanGeneralMeaning | lib/server/calculateUtils.ts:153-165 | the general projection is the base totals, plus every module's delta once, plus the general entries |
| CalculateUtils.OnlyGeneralEntries | lib/server/calculateUtils.ts:104-107 | general entries move no module |
| CalculateUtils.GeneralSessionsAreModuleSessions | lib/server/calculateUtils.ts:16-38 | without summaries the general session total is the sum of the modules' base sessions |
| CalculateUtils.BaseClassesAsWritten | lib/server/calculateUtils.ts:8-12 | as written, on a snapshot with reto summaries every non-reto module has 0 base classes, and its absences are the rounded total |
| CalculateUtils.BaseClassesCorrected | lib/server/calculateUtils.ts:8-10 | corrected, the base classes are the module's own classes plus its rounded derived classes, never fewer than it was given |
| CalculateUtils.SessionsSumZero | lib/server/calculateUtils.ts:19 | summaries without session fields sum to 0 sessions |
| CalculateUtils.GeneralSessionsAsWritten | lib/server/calculateUtils.ts:16-24 | as written, such a snapshot's general session total is 0 |
| CalculateUtils.AttendedSumAtLeast | lib/server/calculateUtils.ts:18-20 | the attendance fields sum to at least the classes the modules were given |
| CalculateUtils.GeneralSessionsCorrected | lib/server/calculateUtils.ts:18-20 | corrected, the general session total is at least the classes of the non-reto modules |
| CalculateRoute.SelectedModule | app/api/faltas/calculate/route.ts:47 | the `module` parameter when it is given and not empty, `"__general__"` otherwise |
| CalculateRoute.AddedAbsences | app/api/faltas/calculate/route.ts:48 | the number the `addedAbsences` text denotes, and 0 for a missing parameter or text that is not a number |
| CalculateRoute.ModuleMeta | app/api/faltas/calculate/route.ts:73-80 | one entry per module code, in key order, and an entry has a group exactly when it is a reto |
| CalculateRoute.RetoRows | app/api/faltas/calculate/route.ts:103-132 | every row is the current and projected percentage of its own module, computed with that module's coefficient |
| CalculateRoute.HandleGet | app/api/faltas/calculate/route.ts:43-163 | 400 without a DNI, 500 when the snapshot cannot be loaded, and otherwise a 200 whose body is the response computed from the loaded snapshot, the selected module and the added absences; that 200 lists every module and has a reto analysis exactly when the selected module is a reto |
| CalculateRoute.StatsNotLower | app/api/faltas/calculate/route.ts:61-62 | adding absences never lowers the projected percentage below the current one, and adding none leaves them equal |
| CalculateRoute.ProjectionNotLower | app/api/faltas/calculate/route.ts:58-70 | for the whole course and for the selected module, a projection with added absences is at least the current percentage |
| CalculateRoute.GeneralSelectsNoModule | app/api/faltas/calculate/route.ts:65-70 | selecting `"__general__"` gives all-zero module figures and no reto analysis |
| CalculateRoute.RetoRowsCodes | app/api/faltas/calculate/route.ts:103-109 | the rows are exactly the modules that are not retos and have a non-zero coefficient, in key order |
| CalculateRoute.RowNotLower | app/api/faltas/calculate/route.ts:111-129 | with a non-negative coefficient, a module's projection with the reto's added absences is at least its current percentage |
| CalculateRoute.RowsNotLower | app/api/faltas/calculate/route.ts:103-132 | with non-negative coefficients no row is projected below its current percentage |
| CalculateRoute.RetoAnalysisNotLower | app/api/faltas/calculate/route.ts:88-137 | neither the reto itself nor any of its modules is projected below its current percentage |
| CalculateRoute.RetoAnalysisPresence | app/api/faltas/calculate/route.ts:83-88 | the reto analysis is present exactly when the selected module is a reto by its code or legend label |
| SelectedWeekRoute.WeekIndex | app/api/faltas/selectedWeek/route.ts:28 | a missing or empty index parameter gives no index |
| SelectedWeekRoute.RouteSelectedWeek | app/api/faltas/selectedWeek/route.ts:44-73 | a week exactly for an index within range, with the same dates and the sessions, in order, that pass both filters |
| SelectedWeekRoute.HandleGet | app/api/faltas/selectedWeek/route.ts:12-41 | 400 without a DNI, 500 when the snapshot cannot be loaded; with a loaded snapshot, both legends and the selected week |
| SelectedWeekRoute.AgreesWithServiceOnIndex | app/api/faltas/selectedWeek/route.ts:50-72 | for a given index the route and the snapshot service's week selection agree |
| SelectedWeekRoute.NoDefaultWeek | app/api/faltas/selectedWeek/route.ts:50-52 | without an index the route gives no week while the snapshot service gives the latest one |
| SelectedWeekRoute.IndexTextSelects | app/api/faltas/selectedWeek/route.ts:28-54 | the decimal text of a position within range selects the week at that position |
| SelectedWeekRoute.NegativeIndexNoWeek | app/api/faltas/selectedWeek/route.ts:50 | a negative index selects no week |
| Ui.BucketOf | lib/utils/ui.ts:2-3 | the green band is below 7 %, the red band 14 % and above, amber in between |
| Ui.PercentColorClasses | lib/utils/ui.ts:1-5 | the gradient and text classes both belong to the band of the percentage |
| Ui.GetPercentageColors | lib/utils/ui.ts:11-19 | the hex colours belong to the same band as the gradient classes for the same percentage |
| Ui.GetPercentageGradientClass | lib/utils/ui.ts:25-28 | `bg-gradient-to-r ` followed by the gradient of the percentage's band |
| Ui.AbsenceColorStyle | lib/utils/ui.ts:35-46 | no style for a missing or empty code; otherwise background and border use the code's lower-cased colour variable and the text its `-text` variable |
| Ui.AbsenceColorClass | lib/utils/ui.ts:53-55 | always the empty class |
| Ui.ModuleColorClass | lib/utils/ui.ts:82-84 | always the empty class |
| Ui.HashOf | lib/utils/ui.ts:66-69 | the rolling hash of a name is an unsigned 32-bit value |
| Ui.ModuleHash | lib/utils/ui.ts:66-69 | the loop computes the left fold of the rolling hash over the whole name, wrapped to 32 bits at every step |
| Ui.ModuleSlot | lib/utils/ui.ts:70 | the colour slot is from 1 to 10 |
| Ui.ModuleColorStyle | lib/utils/ui.ts:62-75 | the page background for a missing or empty name, otherwise the `--moduleN` colour of the name's slot |
| Ui.ModuleStylesDistinct | lib/utils/ui.ts:62-75 | names in different slots get different colours |
| ComplexCalculations.ModuleRowOf | lib/hooks/useComplexCalculations.ts:12-29 | a row keeps its code, takes the legend name, and totals that fall back to direct plus derived; its percentage is of those totals |
| ComplexCalculations.ModuleRowsInOrder | lib/hooks/useComplexCalculations.ts:11-30 | one row per calculation entry, in entry order |
| ComplexCalculations.UseModuleCalculations | lib/hooks/useComplexCalculations.ts:5-33 | no rows without a snapshot or calculations; otherwise a permutation of the rows sorted by percentage, highest first |
| ComplexCalculations.InModuleRowsInOrder | lib/hooks/useComplexCalculations.ts:11-30 | a row is listed exactly when its code has a calculation and the row is that calculation's row |
| ComplexCalculations.ModuleRowsCover | lib/hooks/useComplexCalculations.ts:5-33 | the sorted rows are exactly the rows of the module calculations |
| ComplexCalculations.FirstModuleRowIsHighest | lib/hooks/useComplexCalculations.ts:31 | the first row has the highest percentage |
| ComplexCalculations.ModuleRowAgreesWithBase | lib/hooks/useComplexCalculations.ts:17-18 | a row's stored totals are the base figures the calculate helpers read for the same module |
| ComplexCalculations.HookCounts | lib/hooks/useComplexCalculations.ts:41-42 | a reto without aggregated data counts as having no absences |
| ComplexCalculations.HookRetoRowOf | lib/hooks/useComplexCalculations.ts:40-51 | a reto row has the reto's id and label, its counted absences over its classes, and the percentage of the two |
| ComplexCalculations.HookRetoRowsInOrder | lib/hooks/useComplexCalculations.ts:39-52 | one row per reto, in the snapshot's order |
| ComplexCalculations.UseRetoCalculations | lib/hooks/useComplexCalculations.ts:35-55 | no rows without retos; otherwise one row per reto, sorted by percentage, highest first |
| ComplexCalculations.RetoRowsCover | lib/hooks/useComplexCalculations.ts:35-55 | the sorted rows are exactly the rows of the snapshot's retos |
| ComplexCalculations.MaxWeekIndex | lib/hooks/useComplexCalculations.ts:71-73 | the position the reduce keeps lies within the series |
| ComplexCalculations.MaxWeekIndexMeaning | lib/hooks/useComplexCalculations.ts:71-73 | the kept week has the largest total, and it is the first week with that total |
| ComplexCalculations.SeriesTotalAtMost | lib/hooks/useComplexCalculations.ts:62 | a series whose weeks are all at most m totals at most m times its length |
| ComplexCalculations.UseStatisticsMetrics | lib/hooks/useComplexCalculations.ts:57-84 | nothing for an empty series; otherwise the rounded total, the two-decimal average, the change between the last two weeks and a week of the series as maximum |
| ComplexCalculations.AverageAtMost | lib/hooks/useComplexCalculations.ts:63 | the weekly average is at most any bound on the weeks |
| ComplexCalculations.MetricsMaxWeek | lib/hooks/useComplexCalculations.ts:71-80 | the reported maximum is at least every week, is the first week reaching it, and is at least the average |
| ModulosPage.Rows | app/modulos/page.tsx:11-36 | the page's own module table is the same sorted permutation the shared hook produces |
| ModulosPage.ShowsNoData | app/modulos/page.tsx:56-57 | the empty-state message shows exactly when there is no snapshot or no module calculation |
| ModulosPage.PageRetoRowOf | app/modulos/page.tsx:42-51 | a reto row is named by its label, or its id when the label is empty, with its counted absences over its classes |
| ModulosPage.PageRetoRowsInOrder | app/modulos/page.tsx:41-52 | one row per reto, in the snapshot's order |
| ModulosPage.RetoRows | app/modulos/page.tsx:38-54 | no rows without retos; otherwise one row per reto, sorted by percentage, highest first |
| ModulosPage.RetoRowsMatchHook | app/modulos/page.tsx:38-54 | when every reto has a label and aggregated data, the page's reto rows are the shared hook's |
| ModulosPage.BarRatio | app/modulos/page.tsx:87 | the bar width stays within 0 to 100, grows five-fold with the percentage and is full from 20 % |
| ModulosPage.GradientClass | app/modulos/page.tsx:88 | the page's gradient is the shared palette's for the same percentage |
| ModulosPage.TextClass | app/modulos/page.tsx:89 | the page's text colour is the shared palette's for the same percentage |
| DashboardPage.ModulesTable | app/dashboard/page.tsx:35-47 | no rows before the snapshot loads; then every row is a module of the snapshot passing the module filter, and with distinct module keys "all" gives one row per module in order with its classes given, any other filter at most that module's row |
| DashboardPage.TopLine | app/dashboard/page.tsx:49-55 | the empty line before the snapshot loads; then a line opening with the week count and " semanas · ", whose digits up to the first space read back as the number of weeks |
| DashboardPage.WeeklySeries | app/dashboard/page.tsx:57-73 | once loaded, the service's weekly series, one point per week |
| DashboardPage.MonthlySeries | app/dashboard/page.tsx:75-90 | nothing before the snapshot loads; then distinct months in ascending order, each with its positive number of counted sessions, the totals adding up to all counted sessions |
| DashboardPage.Kpis | app/dashboard/page.tsx:93-113 | KPIs exactly when loaded, and the total splits into the last 30 days and the days before |
| DashboardPage.SelectedWeek | app/dashboard/page.tsx:116-127 | no week before the snapshot loads; then the week at the chosen index, or the last one when none is chosen, exactly when that index exists, with its dates and, in order, just the sessions passing both filters |
| CalcularPage.LocalSumExcludingJ | app/calcular/page.tsx:15-21 | a missing record sums to 0 |
| CalcularPage.ReduceNonJIsSum | app/calcular/page.tsx:17-20 | the reduce adds the finite non-J counts to its start value |
| CalcularPage.LocalSumIsShared | app/calcular/page.tsx:15-21 | the page's private copy of the sum agrees with the shared calculation helper on every record |
| CalcularPage.AddedAbsences | app/calcular/page.tsx:56-61 | never negative: 0 unless the amount is a positive finite number, the amount in hours mode and six times it in days mode |
| CalcularPage.DaysAreSixHours | app/calcular/page.tsx:56-61 | a number of days adds six times the hours the same number of hours adds |
| CalcularPage.ModuleKeys | app/calcular/page.tsx:87-89 | the codes of the reply's module entries, in order, and none without a reply |
| CalcularPage.MapCodes | app/calcular/page.tsx:88 | the codes of the entries, position by position |
| CalcularPage.RetosAuto | app/calcular/page.tsx:92-94 | the reply's reto entries, in order |
| CalcularPage.FindMeta | app/calcular/page.tsx:99 | the position of the first entry with the code, or none when no entry has it |
| CalcularPage.SelectedIsReto | app/calcular/page.tsx:97-101 | true exactly when a reply exists, the selection is a module and its first entry is a reto |
| CalcularPage.SelectedIsRetoMatchesServer | app/calcular/page.tsx:97-101 | for a module of the snapshot the page's reto test agrees with the server's |
| HorarioPage.RowCodes | app/horario/page.tsx:41-45 | the codes of an hour row's filled cells, never more than the row has cells |
| HorarioPage.HoursPerModule | app/horario/page.tsx:36-49 | nothing without a timetable; otherwise one key per module that occurs, each mapped to the number of cells it fills |
| HorarioPage.RowCodesCount | app/horario/page.tsx:41-45 | a row contributes one hour per filled cell |
| HorarioPage.CellCodesCount | app/horario/page.tsx:40-46 | the timetable contributes one hour per filled cell |
| HorarioPage.TotalHours | app/horario/page.tsx:90 | no hours without a timetable |
| HorarioPage.TotalHoursCountsCells | app/horario/page.tsx:36-49 | the total of the hours per module is the number of filled cells |
| HorarioPage.Column | app/horario/page.tsx:65 | a day's column holds that day's cell of every hour row |
| HorarioPage.RunEnd | app/horario/page.tsx:73-76 | a run of the same module ends at the first hour that does not continue it |
| HorarioPage.MergedColumn | app/horario/page.tsx:64-84 | one merged cell per hour |
| HorarioPage.MergeDay | app/horario/page.tsx:59-85 | the loop over a day's hours produces the run-based merged column |
| HorarioPage.RunEndAt | app/horario/page.tsx:73-81 | any hour after which the run stops continuing is the run's end |
| HorarioPage.MergedSchedule | app/horario/page.tsx:52-88 | no days without a timetable; otherwise five merged columns, one per day |
| HorarioPage.SkippedSpanNothing | app/horario/page.tsx:76 | skipped cells add no height |
| HorarioPage.SpansCoverFrom | app/horario/page.tsx:64-84 | from the head of a run on, the heights of the cells add up to the hours left |
| HorarioPage.SpansCoverDay | app/horario/page.tsx:59-85 | the heights of a day's cells add up to its six hours: nothing lost, nothing doubled |
| HorarioPage.ContinuesHasHead | app/horario/page.tsx:73-76 | an hour that continues a run has an earlier head with the same module whose run reaches it |
| HorarioPage.HeadSpansTo | app/horario/page.tsx:73-75 | a head's run reaches every hour that continues it without a break |
| HorarioPage.SkippedShowsHead | app/horario/page.tsx:73-76 | a skipped cell lies under a visible cell of the same module tall enough to cover it |
| HorarioPage.ScheduleModules | app/horario/page.tsx:24-25 | exactly the legend's modules that are not retos, in legend order, which fixes each module's palette position |
| HorarioPage.Restricted | app/horario/page.tsx:24-25 | the keys kept are exactly those whose module is not a reto, in their order: the `.filter` of the keys |
| HorarioPage.IndexOf | app/horario/page.tsx:94 | the first position of the code, or -1 exactly when it is absent |
| HorarioPage.ModuleColor | app/horario/page.tsx:92-106 | the muted colour for an empty cell, no colour for a code not in the list, else the palette entry of its first position taken cyclically |
| HorarioPage.IndexOfDistinct | app/horario/page.tsx:94 | in a list without repeats a module's position is its index |
| HorarioPage.ColorsCycle | app/horario/page.tsx:105 | modules eight positions apart share a colour |
| Dates.TodayLocalISO | lib/utils/dates.ts:5 | the first ten characters of the local timestamp, or all of it when shorter |
| Dates.RangeIncludesEnds | lib/utils/dates.ts:8-10 | each end of a range belongs to it exactly when the start does not come after the end |
| Dates.ReversedRangeIsEmpty | lib/utils/dates.ts:8-10 | a range whose end comes before its start includes no date |
| Weeks.FirstHolding | lib/utils/weeks.ts:6 | the first week from a position on that holds the day, or none when no later week does |
| Weeks.FindCurrentWeekIndex | lib/utils/weeks.ts:4-8 | the first week that holds today, and none when no week does or there are no weeks |
| Weeks.GetDefaultWeekIndex | lib/utils/weeks.ts:10-14 | a week exactly when there are weeks: the current week if any, otherwise the last |
| Weeks.DefaultHoldsTodayWhenAnyDoes | lib/utils/weeks.ts:10-14 | when some week holds today the default week holds it too and comes no later |
| Absences.FirstFalta | lib/utils/absences.ts:3 | the first position from a start on where `falta`, a separator and a lone letter match, or none when there is no later match |
| Absences.AbsenceType | lib/utils/absences.ts:3-14 | a type exactly when the lower-cased class matches; it is the upper-cased letter of the first match |
| Absences.Classify | lib/utils/absences.ts:9-14 | each cell with its date and the type its class denotes |
| Absences.DayAfterTotal | lib/utils/absences.ts:15-16 | a day's total grows by the number of typed cells dated that day |
| Absences.DayAfterTypes | lib/utils/absences.ts:15-17 | each type's count grows by the number of cells of that type dated that day |
| Absences.DayAfterBalanced | lib/utils/absences.ts:16-17 | a day's total stays the sum of its per-type counts |
| Absences.Dedup | lib/utils/absences.ts:7-8 | the distinct days of the week, without repeats |
| Absences.DedupInOrder | lib/utils/absences.ts:7-8 | the distinct days keep the order in which they first appear |
| Absences.InitialBuckets | lib/utils/absences.ts:7-8 | every day starts with an empty bucket |
| Absences.InitialBucketsKeys | lib/utils/absences.ts:7-8 | the buckets are keyed by the distinct days, in order |
| Absences.AddCell | lib/utils/absences.ts:10-17 | a cell counts towards its own day's bucket only, and only when its date is a day of the week and it has a type |
| Absences.AddCellKeys | lib/utils/absences.ts:11 | a cell dated outside the week adds no day |
| Absences.AddCellsKeys | lib/utils/absences.ts:9-18 | the loop keeps the days of the week as keys |
| Absences.AddCellsDay | lib/utils/absences.ts:9-18 | after the loop a day's bucket is its start bucket updated with that day's cells |
| Absences.Entries | lib/utils/absences.ts:19 | one entry per bucket, with its date, total and types |
| Absences.FinalBucketsKeys | lib/utils/absences.ts:7-18 | the final buckets are keyed by the distinct days, each once |
| Absences.FinalBucketAt | lib/utils/absences.ts:7-18 | each final bucket counts exactly the typed cells of its day, in total and per type |
| Absences.AggregateWeeklyAbsences | lib/utils/absences.ts:5-20 | nothing without a week; otherwise one entry per distinct day with the count of typed cells of that day, whose types add up to the total |
| Absences.AggregateDaysInOrder | lib/utils/absences.ts:7-19 | every day of the week has an entry, in the week's order |
| Calendar.DayNumberInjective | lib/utils.ts:10-15 | different valid dates have different day numbers |
| Calendar.CivilFromDays | lib/utils.ts:26-28 | the calendar date of a day number is valid and has that day number |
| Calendar.CivilRoundTrip | lib/utils.ts:26-28 | reading a date back from its day number gives the same date |
| Calendar.Weekday | lib/utils.ts:21 | the weekday is from 0 (Sunday) to 6 |
| Calendar.AcademicStartYear | lib/utils.ts:9-12 | the school year starts this year, or the year before exactly when today is before 1 September |
| Calendar.GetAcademicYearRange | lib/utils.ts:8-17 | the range runs from midnight UTC of 1 September of the start year to midnight UTC of 31 August of the next |
| Calendar.AcademicYearRangeDates | lib/utils.ts:8-17 | both ends fall at midnight, are 1 September and the following 31 August, and the start comes first |
| Calendar.TodayInAcademicYear | lib/utils.ts:8-17 | any instant of the local year lies within the school year chosen for it |
| Calendar.SchoolYearBounds | lib/utils.ts:14-15 | both ends read back as the intended dates and the start precedes the end |
| Calendar.MondayDeltaMeaning | lib/utils.ts:21-23 | the step taken reaches a Monday within six days and passes none on the way |
| Calendar.MondayMsMonotone | lib/utils.ts:30 | the visited instants increase week by week |
| Calendar.FormatAll | lib/utils.ts:26-29 | one formatted date per instant, in order |
| Calendar.MondayInstants | lib/utils.ts:20-31 | the loop visits the consecutive Mondays up to the end and stops at the first after it |
| Calendar.EnumerateMondaysBetween | lib/utils.ts:19-33 | the `yyyy-mm-dd` text of every Monday from the start's week up to the end, and no more |
| Calendar.MondaysMeaning | lib/utils.ts:19-33 | every listed day is a Monday, seven days after the one before, and the first is the first Monday on or after the start |
| Calendar.IsoParts | lib/utils.ts:36 | splitting an ISO date on `-` gives its year, month and day |
| Calendar.ReorderedDate | lib/utils.ts:35-38 | a `dd-mm-yyyy` date is turned back into `yyyy-mm-dd` by the scraper's normalisation |
| Calendar.IsoDateRoundTrip | lib/utils.ts:35-38 | converting an ISO date to `dd-mm-yyyy` and normalising it gives it back |
| ConfigStatus.AllFalsy | app/api/faltas/config/status/route.ts:23 | true exactly when every stored hour value is 0, missing or not a number |
| ConfigStatus.RetoReasons | app/api/faltas/config/status/route.ts:29-37 | one reason per reto that has no module ticked, and nothing else |
| ConfigStatus.ConfigStatusGet | app/api/faltas/config/status/route.ts:4-40 | 400 exactly without a DNI; configuration is needed exactly when there is a reason, and the timetable reason appears exactly when the hours are empty or all zero |
| ConfigStatus.HorarioNotRetoReason | app/api/faltas/config/status/route.ts:25-34 | the timetable reason is never mistaken for a reto reason |
| ConfigStatus.RetoReasonInjective | app/api/faltas/config/status/route.ts:34 | different retos give different reasons |
| ConfigStatus.RetoReportedIffUnassigned | app/api/faltas/config/status/route.ts:11-37 | a reto is reported exactly when it is a legend module that the reto test accepts and none of its modules is ticked |
| ConfigHorarioPage.ShownHours | app/configuracion/horario/page.tsx:60 | the stored hours when finite, otherwise 0 |
| ConfigHorarioPage.RowsFor | app/configuracion/horario/page.tsx:58-61 | one row per key with its label and shown hours |
| ConfigHorarioPage.HoursRows | app/configuracion/horario/page.tsx:56-61 | rows exactly for the legend's modules that are not retos, in legend order, each with its label and shown hours |
| ConfigHorarioPage.EditHours | app/configuracion/horario/page.tsx:71-72 | the edited module gets the typed number, or 0 when it is not finite, and every other module keeps its value |
| ConfigHorarioPage.ResetAllHours | app/configuracion/horario/page.tsx:88-89 | the same keys, every one with 0 hours |
| ConfigHorarioPage.ResetShowsZero | app/configuracion/horario/page.tsx:88-89 | after a reset every module shows 0 and the status route reports the timetable as unset |
| ConfigRetosPage.PageIsRetoAgrees | app/configuracion/retos/page.tsx:12-15 | the page's reto test agrees with the one the reto distribution uses |
| ConfigRetosPage.NonRetoModules | app/configuracion/retos/page.tsx:11-16 | nothing without a snapshot; otherwise the aggregated modules that are not retos, as the distribution takes them |
| ConfigRetosPage.FilterSameTest | app/configuracion/retos/page.tsx:16 | filtering with the page's test keeps the same keys as the distribution's partition |
| ConfigRetosPage.PageRetos | app/configuracion/retos/page.tsx:17 | the snapshot's retos, or none |
| ConfigRetosPage.Toggle | app/configuracion/retos/page.tsx:68-70 | only the ticked pair changes, to the new state; other retos' selections are untouched |
| ConfigRetosPage.CheckingClearsReason | app/configuracion/retos/page.tsx:68-70 | ticking any module of a reto removes that reto's reason from the status route |
| VersionPolicy.NormalizeVersion | lib/services/versionPolicy.ts:12-15 | `0.0.0` for a missing or empty input; otherwise never longer than the input |
| VersionPolicy.NormalizePlain | lib/services/versionPolicy.ts:12-15 | a plain dotted version comes back unchanged, with or without a leading `v` or `V` |
| VersionPolicy.NormalizePrefixed | lib/services/versionPolicy.ts:14 | only the one leading `v` or `V` is dropped |
| VersionPolicy.ParseParts | lib/services/versionPolicy.ts:18-19 | each dotted part read as a decimal integer, an empty part as 0 |
| VersionPolicy.CompareUpTo | lib/services/versionPolicy.ts:20-26 | the comparison from a position on is -1, 0 or 1 |
| VersionPolicy.CompareSemver | lib/services/versionPolicy.ts:17-27 | the result is -1, 0 or 1 |
| VersionPolicy.CompareUpToSelf | lib/services/versionPolicy.ts:20-26 | components compare level with themselves |
| VersionPolicy.CompareUpToSwap | lib/services/versionPolicy.ts:20-26 | swapping the operands negates the comparison |
| VersionPolicy.CompareUpToPadded | lib/services/versionPolicy.ts:21-22 | components equal after zero padding compare level |
| VersionPolicy.CompareUpToLonger | lib/services/versionPolicy.ts:20 | going beyond the longer version changes nothing |
| VersionPolicy.CompareUpToTrans | lib/services/versionPolicy.ts:20-26 | on numeric components the comparison is transitive, strictly so when one step is strict |
| VersionPolicy.CompareReflexive | lib/services/versionPolicy.ts:17-27 | every version equals itself |
| VersionPolicy.CompareAntisymmetric | lib/services/versionPolicy.ts:17-27 | swapping two versions negates the result |
| VersionPolicy.CompareTransitive | lib/services/versionPolicy.ts:17-27 | on numeric versions the order is transitive |
| VersionPolicy.TrailingZeroIgnored | lib/services/versionPolicy.ts:21-22 | a trailing `.0` does not change a version |
| VersionPolicy.NormalizeAll | lib/services/versionPolicy.ts:52-54 | each listed version normalised, in order |
| VersionPolicy.ShouldBlockByPolicy | lib/services/versionPolicy.ts:40-60 | no policy never blocks; a build below the minimum is blocked with the minimum as reason, else a deprecated build is blocked, else it passes |
| VersionPolicy.AtMinimumNotBelow | lib/services/versionPolicy.ts:47-57 | a build at exactly the minimum is blocked only when it is deprecated |
| VersionPolicy.RaisingMinimumBelowBuild | lib/services/versionPolicy.ts:47-50 | a minimum up to the build's version never blocks it, nor does a lower one |
| VersionPolicy.LatestRelease | app/updates.tsx:29-44 | nothing without a reply; otherwise a release exactly when the tag or name normalises to a non-empty version, with the release page as default link |
| VersionPolicy.LatestReleaseEdgeTags | app/updates.tsx:37-41 | a tag of just `v` gives no release, and a reply with neither tag nor name gives version `0.0.0` |
| VersionPolicy.UpdateMeansBehind | app/updates.tsx:55-56 | an update is offered exactly when the build is older than the release, never when they are equal |
| FaltasTypes.RoleText | lib/types/faltas.ts:1 | a role is written as one letter |
| FaltasTypes.RoleOf | lib/types/faltas.ts:13 | exactly `A`, `P`, `D` and `E` are roles, and a role reads back as its letter |
| FaltasTypes.AsLoginBody | lib/types/faltas.ts:9-17 | a login body exactly for an object with a role letter and string user name and password, holding those values |
| FaltasTypes.Fields | lib/types/faltas.ts:3-7 | the three fields of a login body have distinct names |
| FaltasTypes.AsLoginBodyOfFields | lib/types/faltas.ts:9-17 | the object written from a login body passes the guard as that same body |
| FaltasTypes.FieldsOfBody | lib/types/faltas.ts:3-7 | the written object holds the body's role letter, user name and password |
| FaltasTypes.RoleTextIsRole | lib/types/faltas.ts:13 | every role's letter passes the role test |
| FaltasTypes.RoleTextInjective | lib/types/faltas.ts:1 | different roles have different letters |
| FaltasTypes.ExtraFieldIgnored | lib/types/faltas.ts:9-17 | fields other than the three do not affect the guard |
| FaltasTypes.GuardRejects | lib/types/faltas.ts:11-13 | a value that is not an object, or has another role, is rejected |
| Credentials.BitXorTwice | lib/services/credentials.ts:8-16 | XOR with the same key twice gives the value back |
| Credentials.BitXorFixed | lib/services/credentials.ts:7-8 | only the zero key leaves a value unchanged |
| Credentials.BitXorBelow | lib/services/credentials.ts:8 | XOR of two bytes is a byte |
| Credentials.XorByte | lib/services/credentials.ts:7-8 | the key 0x5A changes every byte |
| Credentials.XorByteTwice | lib/services/credentials.ts:8-16 | the byte mask undoes itself |
| Credentials.XorAll | lib/services/credentials.ts:8 | every byte masked, position by position |
| Credentials.XorAllTwice | lib/services/credentials.ts:8-16 | masking all bytes twice gives them back |
| Credentials.Deobfuscate | lib/services/credentials.ts:12-18 | fails exactly when the text is not valid Base64 |
| Credentials.DeobfuscateObfuscate | lib/services/credentials.ts:6-18 | deobfuscating an obfuscated text gives the text back, less a leading U+FEFF, which the decoder drops as a byte order mark |
| Credentials.ObfuscateNonEmpty | lib/services/credentials.ts:6-10 | a non-empty text is stored as a non-empty value |
| Credentials.Save | lib/services/credentials.ts:22-35 | without a window, or when the storage call throws, nothing changes; forgetting empties the slot; otherwise the slot holds the obfuscated JSON of the credentials |
| Credentials.Load | lib/services/credentials.ts:37-61 | credentials exactly from a non-empty slot in a browser whose text decodes, parses and passes the login-body guard, and then the credentials the guard gives |
| Credentials.LoadAfterSave | lib/services/credentials.ts:22-61 | loading after saving gives back the credentials saved |
| Credentials.ForgetAndNoWindow | lib/services/credentials.ts:23-38 | after forgetting nothing loads; without a window nothing loads and nothing is stored |
| Credentials.LoadRejectsBadRole | lib/services/credentials.ts:51-56 | stored credentials with an unknown role are not loaded |
| HttpConfig.EnvOr | lib/config.ts:8 | the variable when set and not empty, else the default |
| HttpConfig.BaseUrl | lib/config.ts:8-11 | the configured base with one trailing slash removed |
| HttpConfig.DefaultBaseUrl | lib/config.ts:8-11 | without the variable the base is the school's site |
| HttpConfig.TimeoutMs | lib/config.ts:13 | 15000 without the variable, else the number its text denotes |
| HttpConfig.WithBase | lib/config.ts:17-20 | the base, one slash, then the path without its leading slash |
| HttpConfig.WithBaseSlashOptional | lib/config.ts:17-20 | a path with or without a leading slash gives the same URL |
| FaltasClient.SplitCookies | lib/http/faltasClient.ts:9 | a header splits into at least one piece |
| FaltasClient.JoinSplitCookies | lib/http/faltasClient.ts:9 | the pieces joined with commas give the header back: the split loses nothing |
| FaltasClient.SplitCookiesAppend | lib/http/faltasClient.ts:9 | a comma followed by a `name=` cuts the header there |
| FaltasClient.SplitCookiesNoComma | lib/http/faltasClient.ts:9 | text without a comma is one piece |
| FaltasClient.TrimAll | lib/http/faltasClient.ts:10 | each piece trimmed, in order |
| FaltasClient.NormalizeSetCookie | lib/http/faltasClient.ts:5-11 | no cookies for a missing or empty header, the list itself for a list, and trimmed pieces for a combined header |
| FaltasClient.TrimmedPieces | lib/http/faltasClient.ts:10 | every cookie kept is trimmed |
| FaltasClient.TrimmedPiece | lib/http/faltasClient.ts:10 | a non-empty trimmed piece has no surrounding white space |
| FaltasClient.NormalizeJoined | lib/http/faltasClient.ts:5-11 | trimmed cookies without commas, joined into one header, are split back into the same cookies |
| FaltasClient.SplitJoined | lib/http/faltasClient.ts:9 | cookies joined with commas split back into the same cookies |
| FaltasClient.SessionFrom | lib/http/faltasClient.ts:16 | the first `PHPSESSID=` with a non-empty value from a position on, or none when there is no later one |
| FaltasClient.CookieSession | lib/http/faltasClient.ts:16-17 | a session exactly when a cookie holds `PHPSESSID=` with a value; the value is non-empty and stops before the first `;` |
| FaltasClient.FirstWithSession | lib/http/faltasClient.ts:15-18 | the first cookie that holds a session, or none when no cookie does |
| FaltasClient.SessionOfCookies | lib/http/faltasClient.ts:15-19 | the session of the first cookie that has one, and none exactly when no cookie has one |
| FaltasClient.ParseSetCookieForPhpsessid | lib/http/faltasClient.ts:13-20 | a found session id is non-empty and holds no `;` |
| FaltasClient.SessionOfPair | lib/http/faltasClient.ts:16 | `PHPSESSID=v` followed by attributes yields exactly `v` |
| FaltasClient.SetSession | lib/http/faltasClient.ts:78-80 | the client now holds the given session |
| FaltasClient.CookieHeader | lib/http/faltasClient.ts:39 | a `PHPSESSID=` cookie exactly when the client holds a non-empty session |
| FaltasClient.LoginRequestOf | lib/http/faltasClient.ts:29-44 | the form posted to `/control.php` carries the role letter, user name and password, with the session cookie if any |
| FaltasClient.ErrorFrom | lib/http/faltasClient.ts:57 | the first `index.php?error_login=` followed by 1, 2 or 3 from a position on |
| FaltasClient.ErrorCode | lib/http/faltasClient.ts:57-59 | a code exactly when the location holds an error redirect; it is from 1 to 3 |
| FaltasClient.Renewed | lib/http/faltasClient.ts:47-49 | a session found in the reply replaces the stored one; otherwise the client is unchanged |
| FaltasClient.Login | lib/http/faltasClient.ts:25-76 | success exactly when the redirect names `aplicacion.php`; a failure carries the redirect's error code and message; a network error carries its own message; a renewed session is kept either way |
| FaltasClient.ErrorRedirects | lib/http/faltasClient.ts:57-66 | each of the three error redirects gives its code and message |
| FaltasClient.ErrorLocationCode | lib/http/faltasClient.ts:57-59 | the code read from an error redirect is the one it carries |
| FaltasClient.ErrorLocationNotApplication | lib/http/faltasClient.ts:53-57 | an error redirect is never taken for success |
| FaltasClient.PageMethod | lib/http/faltasClient.ts:92 | a POST exactly when a non-empty date is given |
| FaltasClient.FetchMostrarAlumno | lib/http/faltasClient.ts:86-126 | a network failure and 401 or 403 fail without touching the session; any other status returns the page and keeps a renewed session |
| LoginRoute.FailureStatus | app/api/faltas/login/route.ts:17 | 401 exactly for error codes 1 to 3, 403 otherwise |
| LoginRoute.Answer | app/api/faltas/login/route.ts:7-34 | 500 for an unreadable body, 400 for a body that fails the guard, 200 for a login that succeeded; the cookie is set exactly on success with a non-empty session |
| LoginRoute.RejectedStatus | app/api/faltas/login/route.ts:15-18 | a failed login is 401 exactly when the site redirected with an error code |
| LoginRoute.LoginFailureCode | app/api/faltas/login/route.ts:15-18 | a failed login carries the code of the error redirect, and none after a network error |
| LoginRoute.SuccessCookie | app/api/faltas/login/route.ts:14-29 | after a 200 the cookie set is the session the site sent, if it sent one |
| LoginRoute.BadRoleRefused | app/api/faltas/login/route.ts:9-12 | a body with an unknown role is refused with 400 |
| ThemeUtils.ParseFloat | lib/utils/themeUtils.ts:42-44 | reading a run of digits and points gives a non-negative number or NaN, never an infinity |
| ThemeUtils.ParseFloatDecimal | lib/utils/themeUtils.ts:42-44 | digits, a point and digits read as the decimal they spell, whatever follows |
| ThemeUtils.ParseFloatWhole | lib/utils/themeUtils.ts:42-44 | digits alone read as the whole number they spell |
| ThemeUtils.PointIsNaN | lib/utils/themeUtils.ts:42-44 | a lone point reads as NaN |
| ThemeUtils.NextNumber | lib/utils/themeUtils.ts:31 | a number token is taken whole, and what follows it does not start with a number character |
| ThemeUtils.ThreeNumbers | lib/utils/themeUtils.ts:31-36 | the three components found are number tokens |
| ThemeUtils.AlphaAfterSlash | lib/utils/themeUtils.ts:31 | an alpha found after the slash is not empty |
| ThemeUtils.AlphaTail | lib/utils/themeUtils.ts:31 | an alpha part, when present, is not empty |
| ThemeUtils.ParseOklch | lib/utils/themeUtils.ts:28-39 | only a trimmed text starting `oklch(` parses |
| ThemeUtils.AlphaValue | lib/utils/themeUtils.ts:57 | the alpha, a percentage divided by 100, is never infinite |
| ThemeUtils.IsValidOklch | lib/utils/themeUtils.ts:24-62 | accepted exactly when the text is non-empty, has OKLCH shape, and each of lightness, chroma, hue and the alpha if present lies in its documented range whenever it reads as a number; as written a component that reads as NaN passes |
| ThemeUtils.IsValidOklchStrict | lib/utils/themeUtils.ts:24-62 | accepted exactly when the text has OKLCH shape and every component is a number within range; it implies the check as written |
| ThemeUtils.StrictAgreesOnNumbers | lib/utils/themeUtils.ts:42-58 | when every component reads as a number the two checks agree |
| ThemeUtils.ParseRender | lib/utils/themeUtils.ts:31-39 | the components written out in OKLCH notation are read back unchanged |
| ThemeUtils.RenderShape | lib/utils/themeUtils.ts:28-31 | the written notation is already trimmed and starts with `oklch(` |
| ThemeUtils.ValidWhenInRange | lib/utils/themeUtils.ts:24-62 | any colour written with components in range is accepted |
| ThemeUtils.DocExampleHue | lib/utils/themeUtils.ts:14 | `oklch(0.5 0.2 180)` is accepted |
| ThemeUtils.DocExampleAlpha | lib/utils/themeUtils.ts:15 | `oklch(1 0 0 / 50%)` is accepted |
| ThemeUtils.DocExampleRgb | lib/utils/themeUtils.ts:16 | `rgb(255, 0, 0)` is refused |
| ThemeUtils.NaNComponentsAccepted | lib/utils/themeUtils.ts:42-53 | `oklch(. . .)` is accepted as written and refused by the strict check |
| ThemeUtils.LightnessOf | lib/utils/themeUtils.ts:95-100 | the five lightness bands split at 0.3, 0.5, 0.7 and 0.9; NaN is very light |
| ThemeUtils.ChromaOf | lib/utils/themeUtils.ts:103-107 | the four chroma bands split at 0.05, 0.15 and 0.25; NaN is vivid |
| ThemeUtils.HueOf | lib/utils/themeUtils.ts:110-122 | grey exactly for a chroma below 0.05; otherwise red below 30 or from 330 on, blue from 210 to 270, and so on |
| ThemeUtils.LightnessMonotone | lib/utils/themeUtils.ts:95-100 | a lighter colour never gets a darker band |
| ThemeUtils.MatchFrom | lib/utils/themeUtils.ts:86 | the first position from a start where `oklch(` and three numbers match, or none after it |
| ThemeUtils.Describe | lib/utils/themeUtils.ts:84-132 | a description exactly when the pattern matches, and grey hue exactly with neutral chroma |
| ThemeUtils.DescribeRender | lib/utils/themeUtils.ts:84-128 | a colour in OKLCH notation is described by the bands of its own components |
| ThemeUtils.DescribeExample | lib/utils/themeUtils.ts:81-82 | `oklch(0.5 0.2 250)` is medium, saturated and blue |
| ThemeTypes.Spread | lib/types/theme.ts:237-250 | the overriding colours win and every other key keeps the base colour |
| ThemeTypes.LightShade | lib/types/theme.ts:108-164 | every default light colour has components within the OKLCH ranges |
| ThemeTypes.DarkShade | lib/types/theme.ts:166-223 | every default dark colour has components within the OKLCH ranges |
| ThemeTypes.CompRead | lib/types/theme.ts:108-223 | a colour component's text reads back as its value |
| ThemeTypes.AlphaRead | lib/types/theme.ts:166-223 | a percentage alpha reads as its hundredth |
| ThemeTypes.ShadeValid | lib/types/theme.ts:108-223 | a written colour passes the OKLCH check exactly when its components are in range |
| ThemeTypes.ShadeParses | lib/types/theme.ts:14 | a written colour parses back to its components and alpha |
| ThemeTypes.LightInRange | lib/types/theme.ts:108-164 | each light default is in range |
| ThemeTypes.DarkInRange | lib/types/theme.ts:166-223 | each dark default is in range |
| ThemeTypes.BlueInRange | lib/types/theme.ts:233-254 | the blue preset's own colours are in range |
| ThemeTypes.GreenInRange | lib/types/theme.ts:255-276 | the green preset's own colours are in range |
| ThemeTypes.PurpleInRange | lib/types/theme.ts:277-298 | the purple preset's own colours are in range |
| ThemeTypes.OrangeInRange | lib/types/theme.ts:299-320 | the orange preset's own colours are in range |
| ThemeTypes.BlueKeys | lib/types/theme.ts:233-254 | the blue preset overrides only keys a preset may override |
| ThemeTypes.TextsValid | lib/types/theme.ts:14 | every colour written from an in-range table passes the OKLCH check |
| ThemeTypes.DefaultsValid | lib/types/theme.ts:108-223 | every default colour, light and dark, passes the OKLCH check |
| ThemeTypes.SystemPresetValid | lib/types/theme.ts:225-321 | a preset built from in-range overrides has only valid colours |
| ThemeTypes.PresetColorsValid | lib/types/theme.ts:225-321 | every colour of every built-in preset passes the OKLCH check |
| ThemeTypes.PresetIds | lib/types/theme.ts:225-321 | five presets with distinct ids, `default` first |
| ThemeTypes.PresetOverrides | lib/types/theme.ts:225-321 | every built-in preset differs from the defaults only on keys it overrides |
| ThemeTypes.BlueOverrides | lib/types/theme.ts:233-254 | the blue preset is the defaults with its own overrides |
| ThemeLib.SpaceCapitals | lib/theme/utils.ts:11 | every capital letter gets a space in front, and the first and last characters are kept |
| ThemeLib.CapitalizeFirst | lib/theme/utils.ts:12 | only the first character changes, to upper case |
| ThemeLib.FormatColorLabel | lib/theme/utils.ts:9-14 | the label neither starts nor ends with white space |
| ThemeLib.RemoveSpaces | lib/theme/utils.ts:11 | no spaces left |
| ThemeLib.RemoveInsertedSpaces | lib/theme/utils.ts:11 | removing the inserted spaces gives the key back |
| ThemeLib.FormatColorLabelInverse | lib/theme/utils.ts:9-14 | a camel-case key's label starts with its capitalised first letter, spaces every capital, and leads back to the key |
| ThemeLib.UndoLabel | lib/theme/utils.ts:9-14 | spacing then capitalising is undone by removing spaces and lower-casing the first letter |
| ThemeLib.LabelIsUntrimmed | lib/theme/utils.ts:13 | for a key starting with a lower-case letter the final trim changes nothing |
| ThemeLib.FormatColorLabelExample | lib/theme/utils.ts:7 | `primaryForeground` becomes `Primary Foreground` |
| ThemeLib.LabelOf | lib/theme/utils.ts:9-14 | a two-word key becomes its capitalised first word, a space and its second word |
| ThemeLib.SpaceCapitalsAppend | lib/theme/utils.ts:11 | spacing works character by character |
| ThemeLib.SpaceCapitalsLower | lib/theme/utils.ts:11 | text without capitals is unchanged |
| ThemeLib.Substring | lib/theme/utils.ts:20 | `substring` within bounds is the slice, and empty when both ends fall on the same side |
| ThemeLib.GeneratePresetId | lib/theme/utils.ts:19-21 | a generated id starts `custom-` and has at most seven random characters after the time |
| ThemeLib.GeneratedIsCustom | lib/theme/utils.ts:19-28 | a generated id is never a system preset |
| ThemeLib.GeneratedIdsDiffer | lib/theme/utils.ts:20 | ids generated at different times differ, whatever the random part |
| ThemeLib.NameValidityIgnoresPadding | lib/theme/utils.ts:33-35 | white space around a name does not change its validity |
| ThemeContext.LoadInitialTheme | lib/services/themeContext.tsx:27-42 | the stored configuration is used when there is a window and a non-empty stored text that parses; every other case, a parse failure included, falls back to system mode and the default preset |
| ThemeContext.ActiveMode | lib/services/themeContext.tsx:47-53 | the page is dark exactly when there is a window and the mode is dark, or is system and the system prefers dark |
| ThemeContext.UpdateThemeMode | lib/services/themeContext.tsx:96-100 | only the mode changes; preset, custom colours and custom presets are kept |
| ThemeContext.UpdatePreset | lib/services/themeContext.tsx:102-112 | the preset is selected and both custom colour sets are cleared; mode and custom presets are kept |
| ThemeContext.Merge | lib/services/themeContext.tsx:116-122 | the merged colours hold every key of either set, the new colours winning over the stored ones |
| ThemeContext.UpdateCustomColors | lib/services/themeContext.tsx:114-125 | the chosen scheme's custom colours become the merge of the old ones with the new; the other scheme and everything else are untouched |
| ThemeContext.ResetToDefaults | lib/services/themeContext.tsx:127-134 | the configuration is back to system mode and the default preset, with no custom colours or presets |
| ThemeContext.AllPresets | lib/services/themeContext.tsx:136-138 | the built-in presets come first, in order, followed by the custom ones |
| ThemeContext.FindPreset | lib/services/themeContext.tsx:142 | a preset is found only under its own id, and nothing is found exactly when no preset has the id |
| ThemeContext.FindAppend | lib/services/themeContext.tsx:141-142 | looking up in the built-in presets followed by the custom ones finds the built-in one first |
| ThemeContext.FindFirst | lib/services/themeContext.tsx:142 | the first preset carrying an id is the one found |
| ThemeContext.GetActiveColors | lib/services/themeContext.tsx:140-150 | each colour is the custom colour of the scheme when one is set, and otherwise the colour of the selected preset, which falls back to the first built-in preset |
| ThemeContext.DefaultSelected | lib/services/themeContext.tsx:142-143 | with the default preset selected the base colours are the default palette of the scheme |
| ThemeContext.InitialColors | lib/services/themeContext.tsx:29-42 | the fallback configuration shows the default palette |
| ThemeContext.SelectBuiltIn | lib/services/themeContext.tsx:102-112 | selecting a built-in preset shows exactly that preset's colours, whatever was customised before |
| ThemeContext.CustomColorsApply | lib/services/themeContext.tsx:114-125 | after a colour change the changed keys of that scheme show the new colours and every other colour is as before |
| ThemeContext.MergedColor | lib/services/themeContext.tsx:146-149 | with the preset choice unchanged, merged custom colours show the new value for the given keys and the earlier colour elsewhere |
| ThemeContext.ActiveColorsValid | lib/services/themeContext.tsx:140-150 | when the custom presets and custom colours are valid OKLCH, so is every colour shown |
| ThemeContext.ActivePresetValid | lib/services/themeContext.tsx:141-142 | the preset used for the base colours is valid when every candidate is |
| ThemeContext.FoundValid | lib/services/themeContext.tsx:142 | a preset found in a list of valid presets is valid |
| ThemeContext.CreateCustomPreset | lib/services/themeContext.tsx:152-168 | one preset is appended after the existing custom ones, carrying the new id, the custom mark and the draft's name, description and colours; the rest of the configuration is kept |
| ThemeContext.Apply | lib/services/themeContext.tsx:173 | an update replaces the fields it gives and keeps the others, never the id or the custom mark |
| ThemeContext.ApplyWhere | lib/services/themeContext.tsx:172-174 | the presets keep their number and order; those with the id are updated and the others are unchanged |
| ThemeContext.FindApplied | lib/services/themeContext.tsx:170-183 | after an update, looking up another id finds what it found before, and looking up the updated id finds the updated preset |
| ThemeContext.UpdateCustomPreset | lib/services/themeContext.tsx:170-183 | the custom presets are replaced by their updated list; mode, selection and custom colours are kept |
| ThemeContext.WithoutId | lib/services/themeContext.tsx:187 | no preset with the id survives, and the list only gets shorter |
| ThemeContext.FindWithout | lib/services/themeContext.tsx:185-198 | deleting one id does not change what any other id finds |
| ThemeContext.DeleteCustomPreset | lib/services/themeContext.tsx:185-198 | the presets with the id are removed, and the selection falls back to the default preset exactly when the deleted id was selected |
| ThemeContext.DeleteActive | lib/services/themeContext.tsx:192-193 | deleting the selected preset leaves the default palette as the base colours |
| ThemeContext.DeleteOther | lib/services/themeContext.tsx:185-198 | deleting a preset that is not selected changes no colour shown |
| ThemeContext.UpdateOtherPreset | lib/services/themeContext.tsx:170-183 | updating a preset that is not selected changes no colour shown |
| ThemeContext.UpdateSelectedPreset | lib/services/themeContext.tsx:170-183 | updating the selected custom preset makes the updated preset the one whose colours are shown |
| ThemeContext.SaveThenSelect | lib/services/themeContext.tsx:200-210 | saving the current colours under a fresh id and then selecting that preset shows the same colours as before |
| ThemeContext.GeneratedIdIsNew | lib/services/themeContext.tsx:153 | the id given to a new preset never names a built-in preset |
| ThemeActions.DialogItems | components/theme/ThemeActions.tsx:64-89 | the reset dialog lists the mode, the preset, the custom colours and the custom presets each exactly when that part differs from the defaults, each at most once |
| ThemeActions.DialogMatchesButton | components/theme/ThemeActions.tsx:25-42 | the reset button is disabled exactly when the dialog would list nothing |
| ThemeActions.ResetClears | components/theme/ThemeActions.tsx:20-30 | after a reset there is nothing left to reset |
| ThemeActions.UncustomizedIsDefault | components/theme/ThemeActions.tsx:25-30 | a configuration with no customisation shows the default palette and only the built-in presets |
| ThemeActions.ChangesEnableReset | components/theme/ThemeActions.tsx:25-30 | changing the mode, the custom colours, the custom presets or selecting a preset other than the default enables the reset |
| ConfigContext.ToNumber | lib/services/configContext.tsx:27 | `Number(...)` of a stored value: true and false read as one and zero, and every other value reads as the number of its text |
| ConfigContext.StoredMinutes | lib/services/configContext.tsx:27-31 | the interval read is one the stored field denotes, and any allowed interval the field denotes is the one read; anything else reads as zero |
| ConfigContext.ReadStoredConfig | lib/services/configContext.tsx:22-35 | without a window, without a stored text, or with a text that does not parse the settings are the defaults; otherwise the interval is the one stored |
| ConfigContext.SetAutoSyncMinutes | lib/services/configContext.tsx:37-42 | the new interval is taken, and with a window the text written reads back as exactly the new settings; without one, or when `setItem` throws, the storage is untouched |
| ConfigContext.StoredRoundTrip | lib/services/configContext.tsx:22-42 | reading back the text written for any settings gives those settings |
| ConfigContext.ParseStored | lib/services/configContext.tsx:26-40 | the text written parses as an object with the one interval field holding the number written |
| AppConfigRoute.GetConfig | app/api/faltas/config/app/route.ts:9-17 | without the DNI cookie the reply is 400 with the DNI message; otherwise it is 200 with the stored settings, or an empty object when none or a falsy value is stored |
| AppConfigRoute.ConfigFields | app/api/faltas/config/app/route.ts:25 | the `config` member of the body is used when it is an object, and an empty object stands in otherwise |
| AppConfigRoute.Sanitize | app/api/faltas/config/app/route.ts:27-29 | only the interval, when it is a number, and the group, when it is a text or null, survive, each once and with its given value |
| AppConfigRoute.SanitizeIdempotent | app/api/faltas/config/app/route.ts:27-29 | sanitising saved settings again changes nothing |
| AppConfigRoute.ErrorMessage | app/api/faltas/config/app/route.ts:37 | the error text is the thrown message when it is not empty, and never empty |
| AppConfigRoute.Post | app/api/faltas/config/app/route.ts:19-39 | 400 without the cookie; 200 and a file write of the sanitised settings exactly when the body parsed and the write succeeded; 500 with the thrown message otherwise |
| AppConfigRoute.PostThenGet | app/api/faltas/config/app/route.ts:9-39 | after a successful save, reading the settings returns the sanitised settings that were saved |
| AppConfigRoute.MissingConfigSavesEmpty | app/api/faltas/config/app/route.ts:25-34 | a body without an object `config` saves an empty settings object |
| NoticesRoute.NoticesUrl | app/api/notices/route.ts:25-31 | the URL used always starts with `http://` or `https://`, in any case: the variable when it does, the repository default otherwise |
| NoticesRoute.NoCasePrefix | app/api/notices/route.ts:28 | a lower-case prefix is recognised at the front of any text that starts with it |
| NoticesRoute.Normalise | app/api/notices/route.ts:45-54 | a normalised notice always has a truthy severity |
| NoticesRoute.NormaliseDefaults | app/api/notices/route.ts:45-54 | the severity defaults to `warning`, the id to the title and start date joined by a dash, and title and description to empty texts |
| NoticesRoute.Safe | app/api/notices/route.ts:43-56 | every notice kept is shown now, at most one per entry, and every object entry whose normalised notice is complete and active is kept |
| NoticesRoute.SafeCons | app/api/notices/route.ts:43-56 | keeping or dropping the first entry preserves the two halves of the filter's promise |
| NoticesRoute.NormaliseAll | app/api/notices/route.ts:45-54 | each entry is normalised in place |
| NoticesRoute.SafeIsChain | app/api/notices/route.ts:43-56 | the kept notices are exactly those of the source's chain: object entries, normalised, complete, then active now |
| NoticesRoute.ListOf | app/api/notices/route.ts:41 | an array is the list, an object's `notices` array is the list, and anything else is an empty list |
| NoticesRoute.GetNotices | app/api/notices/route.ts:33-62 | a thrown fetch or unparsable body gives no notices and the fetch error, a non-ok reply gives no notices and the upstream status, and an ok reply gives the kept notices without an error |
| NoticesRoute.ActiveAtBounds | app/api/notices/route.ts:19-23 | a notice is active at its own start and end, and one without dates is always active |
| NoticesRoute.ActiveBetween | app/api/notices/route.ts:19-23 | a notice active at two instants is active at every instant between them |
| NoticeBanner.NamedIcon | components/ui/notice-banner.tsx:11-14 | exactly the four named kinds have an icon of their own |
| NoticeBanner.IconFor | components/ui/notice-banner.tsx:9-20 | a named icon wins, then a named severity, and everything else shows the alert icon |
| NoticeBanner.ToneFor | components/ui/notice-banner.tsx:22-34 | every severity other than info, success and error, `warning` and a missing one included, is drawn in amber |
| NoticeBanner.ClassesDistinct | components/ui/notice-banner.tsx:22-34 | different severity colours give different class strings |
| NoticeBanner.Visible | components/ui/notice-banner.tsx:63 | a notice is listed exactly when it is among the notices and has not been dismissed |
| NoticeBanner.Dismiss | components/ui/notice-banner.tsx:55-61 | the dismissed id is marked true and every other mark is kept |
| NoticeBanner.DismissHides | components/ui/notice-banner.tsx:55-63 | after dismissing an id the list is the earlier list without the notices of that id |
| NoticeBanner.CardFor | components/ui/notice-banner.tsx:68-86 | a card carries the notice's id, title and description, and has a button exactly when the action has both a URL and a label |
| NoticeBanner.Cards | components/ui/notice-banner.tsx:68 | one card per visible notice, in order |
| NoticeBanner.Render | components/ui/notice-banner.tsx:63-91 | nothing is drawn exactly when every notice has been dismissed; otherwise the cards of the visible notices |
| AppLogger.NewLogger | lib/logging/appLogger.ts:107-109 | a new logger is empty and logs from debug in development and from info otherwise |
| AppLogger.Newest | lib/logging/appLogger.ts:44-46 | the buffer keeps the newest entries, at most 1000 of them |
| AppLogger.Add | lib/logging/appLogger.ts:26-46 | an entry below the level leaves the logger unchanged; one at or above it becomes the newest entry and the buffer stays within 1000 |
| AppLogger.GetLogs | lib/logging/appLogger.ts:85-90 | without a level all entries come back; with one, exactly the entries at or above it, in their order, every copy of a repeated entry kept |
| AppLogger.GetRecentLogs | lib/logging/appLogger.ts:92-94 | a positive count gives the newest that many entries, zero gives all of them, and a negative count drops that many from the front |
| AppLogger.ClearLogs | lib/logging/appLogger.ts:96-98 | the buffer is emptied and the level kept |
| AppLogger.SetLevel | lib/logging/appLogger.ts:101-103 | the level changes and the entries are kept |
| AppLogger.NewestAppend | lib/logging/appLogger.ts:41-46 | trimming after every entry keeps the same entries as trimming once at the end |
| AppLogger.RunKeepsNewest | lib/logging/appLogger.ts:30-103 | any sequence of logger calls keeps the newest 1000 of the entries an unbounded logger would hold |
| AppLogger.RunFromNew | lib/logging/appLogger.ts:17-109 | starting from a new logger, the buffer never exceeds 1000 entries and holds the newest of those logged |
| Toasts.Spread | components/ui/toast.tsx:52 | a property the caller left out takes the default, and one the caller wrote, even as undefined, is kept |
| Toasts.Show | components/ui/toast.tsx:50-57 | one toast is appended with the next numeric id, the caller's fields and the defaults filled in, and a removal timer is asked for exactly when the timeout is positive |
| Toasts.Remove | components/ui/toast.tsx:46-48 | exactly the toasts with other ids stay, and the counter is kept |
| Toasts.KeyDown | components/ui/toast.tsx:61-64 | Escape empties the queue and any other key changes nothing |
| Toasts.InitialValid | components/ui/toast.tsx:43-44 | the empty queue is well numbered |
| Toasts.ShowValid | components/ui/toast.tsx:50-53 | showing a toast keeps the ids distinct numbers that increase along the queue |
| Toasts.RemoveNumbered | components/ui/toast.tsx:47 | removing toasts keeps the remaining ids increasing |
| Toasts.RemoveValid | components/ui/toast.tsx:46-48 | removing by id keeps the queue well numbered |
| Toasts.KeyDownValid | components/ui/toast.tsx:61-64 | Escape keeps the queue well numbered |
| Toasts.IdsUnique | components/ui/toast.tsx:51 | no two queued toasts share an id |
| Toasts.RemoveOne | components/ui/toast.tsx:55 | the removal a toast's timer asks for takes out exactly one toast while it is queued |
| Toasts.NoneRemoved | components/ui/toast.tsx:47 | an id smaller than every queued id removes nothing |
| Toasts.PaletteTone | components/ui/toast.tsx:28-40 | the blue palette is used exactly when the kind is not success, warning or error |
| Toasts.DefaultKindIsInfo | components/ui/toast.tsx:28-52 | a toast shown without a kind is drawn in the info palette |
| NumberInput.StripZeros | components/ui/input.tsx:21 | only leading zeros are removed, all of them |
| NumberInput.Sign | components/ui/input.tsx:12 | the sign is a leading minus or nothing |
| NumberInput.HandleInput | components/ui/input.tsx:8-27 | only number fields are changed |
| NumberInput.Cleaned | components/ui/input.tsx:13-25 | a kept form is left as it is; any other text loses leading zeros only, leaving a single zero when nothing else remains, and the result is always a kept form |
| NumberInput.Normalise | components/ui/input.tsx:9-25 | the sign stays in front, and the text is unchanged exactly when it is already a kept form |
| NumberInput.NormaliseIdempotent | components/ui/input.tsx:9-25 | normalising twice is normalising once, for texts with no minus after the leading zeros |
| NumberInput.LeadingZeroValue | components/ui/input.tsx:21 | a leading zero does not change a digit string's value |
| NumberInput.DropsZerosValue | components/ui/input.tsx:21 | dropping leading zeros does not change a digit string's value |
| NumberInput.NormaliseKeepsValue | components/ui/input.tsx:13-25 | an integer typed with extra zeros keeps its value |
| NumberInput.StripZerosPrefix | components/ui/input.tsx:21 | the strip stops at the first character that is not a zero |
| NumberInput.AllZerosLeaveOne | components/ui/input.tsx:20-22 | a run of zeros becomes a single zero |
| NumberInput.ZerosBeforePoint | components/ui/input.tsx:14-24 | a single zero before the point is kept; two or more all go and the point stays first |
| NumberInput.InnerMinus | components/ui/input.tsx:12-24 | zeros followed by a minus lose the zeros, and the result is changed by a second pass |
| SelectMenu.OptionOf | components/ui/select.tsx:29-33 | an option's value defaults to the empty text and its label to its value |
| SelectMenu.GroupOptions | components/ui/select.tsx:25-35 | the options of a group all carry the group's label, at most one per child |
| SelectMenu.ParseOptions | components/ui/select.tsx:14-48 | an option is listed exactly when it is that of an `<option>` child, with no group, or of an `<option>` child of an `<optgroup>` child, under that group's label; every group is null or the label of an `<optgroup>` child |
| SelectMenu.ParseOptionsAppend | components/ui/select.tsx:14-48 | document order: the options of two runs of children are those of the first run followed by those of the second, and a single child gives its own options |
| SelectMenu.GroupItems | components/ui/select.tsx:66-76 | a group's children give only option items |
| SelectMenu.ChildItems | components/ui/select.tsx:62-86 | a header is only ever produced for a group whose label is not empty |
| SelectMenu.BuildItems | components/ui/select.tsx:54-89 | no header of the drop-down has an empty title |
| SelectMenu.ItemOptionsAppend | components/ui/select.tsx:145 | the options of joined item lists are the joined options |
| SelectMenu.GroupItemsMatch | components/ui/select.tsx:25-35 | the option items of a group are the group's parsed options |
| SelectMenu.ChildItemsMatch | components/ui/select.tsx:22-45 | the option items of one child are that child's parsed options |
| SelectMenu.ItemsMatchOptions | components/ui/select.tsx:14-89 | the drop-down's option items are the parsed options, in the same order, up to a missing group label being null in one and empty in the other |
| SelectMenu.DropdownHeight | components/ui/select.tsx:146 | the height lies between 40 and 320, is 36 per option plus 12 for one to eight options, 40 for none and 320 from nine |
| SelectMenu.DropdownMonotone | components/ui/select.tsx:146 | more options never give a shorter drop-down |
| SelectMenu.FirstWithValue | components/ui/select.tsx:113 | the index found is the first option with the value, and none is found only when no option has it |
| SelectMenu.FindLabel | components/ui/select.tsx:110-115 | nothing, null and an empty list show an empty label |
| SelectMenu.FindLabelMeaning | components/ui/select.tsx:110-115 | the label shown is that of the first option with the selected value, or the value itself when no option has it |
| SelectMenu.HandleSelect | components/ui/select.tsx:179-183 | a disabled option emits nothing and leaves the menu as it was; any other emits its value and closes the menu |
| SelectMenu.CountIsParsed | components/ui/select.tsx:145 | the drop-down is sized by the number of parsed options |
| ExternalLinks.IsExternalUrlAsWritten | lib/utils/externalLinks.ts:83-99 | a URL is external exactly when it parses, is http or https, and its host is not one of the names the source treats as local, every `172.` host among them |
| ExternalLinks.IsExternalUrlCorrected | lib/utils/externalLinks.ts:89-93 | corrected: a URL is external exactly when it parses, is http or https, and its host is neither local nor in a private range, `172.` narrowed to 172.16.0.0/12 |
| ExternalLinks.NatToStringLength | lib/utils/externalLinks.ts:93 | the decimal text of a number below 10 has one digit, below 100 two, and otherwise at least three |
| ExternalLinks.Private172Second | lib/utils/externalLinks.ts:93 | a `172.` host is in the private block exactly when its second number is from 16 to 31 |
| ExternalLinks.Local172 | lib/utils/externalLinks.ts:89-93 | an address `172.b.c.d` counts as local exactly when `b` is from 16 to 31 |
| ExternalLinks.Public172AsWritten | lib/utils/externalLinks.ts:89-111 | as written every `172.` address counts as local, so a click on the public `172.217.0.46` is left to the web view, while the corrected handler opens it outside |
| ExternalLinks.OpenExternalUrl | lib/utils/externalLinks.ts:32-49 | an unparsable URL is rejected with its own text; a parsable one is opened by the shell inside the desktop app unless the shell fails, and by the browser otherwise |
| ExternalLinks.HandleLinkClick | lib/utils/externalLinks.ts:106-125 | the click is cancelled and the URL opened exactly when the as-written `isExternalUrl` calls it external |
| ExternalLinks.HandleLinkClickCorrected | lib/utils/externalLinks.ts:106-111 | corrected: the click is cancelled and the URL opened exactly when the corrected classifier calls it external |
| ExternalLinks.HandlersAgreeOutside172 | lib/utils/externalLinks.ts:89-111 | for every host not starting `172.` the source's handler and the corrected one behave identically |
| ExternalLinks.ClickNeverRejects | lib/utils/externalLinks.ts:106-111 | a click never reaches the invalid-URL error, with the source's classifier and with the corrected one |
| ExternalLinks.LocalNeverExternal | lib/utils/externalLinks.ts:89-111 | `localhost`, `127.0.0.1` and every `10.`, `192.168.` and `172.` host are never external, and a click on them is left to the web view |
| ExternalLinks.LocalNeverExternalCorrected | lib/utils/externalLinks.ts:89-95 | corrected: the local names and the private blocks are never external |
| ExternalLinks.OtherProtocolsInternal | lib/utils/externalLinks.ts:88-111 | every protocol other than http and https is internal to both classifiers, and a click on it is left to the web view |
| TauriShell.LocalUrl | src-tauri/src/main.rs:23 | the window is sent to the loop-back address |
| TauriShell.Setup | src-tauri/src/main.rs:14-28 | setup logs the start; a release build that launched the backend holds it in the slot, and sends the main window, when there is one, to its port |
| TauriShell.OnEvent | src-tauri/src/main.rs:35-46 | an exit event empties the slot, kills the process it held, logs a failed kill and then the exit; other events change nothing |
| TauriShell.CountExitLinesAppend | src-tauri/src/main.rs:43 | the exit lines of joined logs add up |
| TauriShell.KillsAtMostOnce | src-tauri/src/main.rs:35-46 | over any run of events the held process is killed once, at the first exit event, and never again |
| TauriShell.ExitLogged | src-tauri/src/main.rs:36-43 | one exit line is written per exit event, killed or not |
| TauriShell.LaunchedKilledOnce | src-tauri/src/state.rs:8-11 | from the empty slot, the only process ever killed is the one a release build launched, once the first exit arrives |
| SemanalPage.FirstHoldingInstant | app/semanal/page.tsx:23-27 | the index found is the first week whose start and end instants hold today, and none is found only when no week holds it |
| SemanalPage.InitialSelection | app/semanal/page.tsx:17-30 | a choice already made is never overridden; otherwise the page opens on the first week holding today, else the last week, and on nothing only when there are no weeks |
| SemanalPage.InitialSelectionIsDefault | app/semanal/page.tsx:17-30 | when the instants agree with the date strings, the page opens on the week `getDefaultWeekIndex` in lib/utils/weeks.ts chooses |
| SemanalPage.SameFirst | app/semanal/page.tsx:23-27 | the instant search and the string search find the same week when they agree week by week |
| SemanalPage.Prev | app/semanal/page.tsx:85-88 | "previous" moves one week back from the current week when it is after the first, and changes nothing otherwise |
| SemanalPage.Next | app/semanal/page.tsx:107-110 | "next" moves one week on when the current week is before the last, and changes nothing otherwise |
| SemanalPage.PrevDisabled | app/semanal/page.tsx:89 | the button is disabled exactly when pressing it would change nothing |
| SemanalPage.NextDisabled | app/semanal/page.tsx:111 | the button is disabled exactly when pressing it would change nothing |
| SemanalPage.ButtonsStayInRange | app/semanal/page.tsx:85-111 | from a listed week neither button leaves the list |
| SemanalPage.ButtonsUndoEachOther | app/semanal/page.tsx:85-111 | an enabled "previous" followed by "next", or the other way round, comes back to the same week |
| SemanalPage.SelectedWeek | app/semanal/page.tsx:14 | with both filters at `all` the week drawn is the chosen week exactly as stored, defaulting to the last, and none when the index is out of range |
| SemanalPage.SessionAt | app/semanal/page.tsx:137 | the cell drawn is the first session at that hour and weekday, and none only when no session is there |
| SemanalPage.CellCode | app/semanal/page.tsx:138 | an empty cell or class has no code; otherwise the code is the one `extractAbsenceCode` gives |
| SemanalPage.ToneOf | app/semanal/page.tsx:37-54 | exactly the six codes F, J, C, E, R and H have a colour, each its own |
| SemanalPage.AbsenceColorClass | app/semanal/page.tsx:37-54 | the class is non-empty exactly for the six known codes |
| SemanalPage.AbsenceClassesDistinct | app/semanal/page.tsx:37-54 | different known codes get different classes |
| SemanalPage.ModuleColorClass | app/semanal/page.tsx:56-74 | no module gives white; otherwise the dot colour is the palette entry at the 32-bit hash modulo 10, the same slot as `moduleColorStyle` in lib/utils/ui.ts |
| SemanalPage.DotPaletteDistinct | app/semanal/page.tsx:58-69 | the ten dot colours are all different |
| SemanalPage.DotColourMatchesModuleStyle | app/semanal/page.tsx:56-74 | two modules share a dot colour exactly when they share a module colour style |
| Utf8.DecodeEncode | lib/services/credentials.ts:7-17 | decoding the UTF-8 bytes of a text gives the text back, except that a leading U+FEFF is dropped as a byte order mark |
| Utf8.BomDropped | lib/services/credentials.ts:17 | the decoder drops one leading byte order mark and keeps any other U+FEFF |
| Utf8.IllFormedReplaced | lib/services/credentials.ts:17 | the decoder replaces ill-formed bytes by U+FFFD instead of failing |
| Base64.AtobBtoa | lib/services/credentials.ts:9-14 | decoding the Base64 text of any bytes gives the bytes back |
| Base64.Atob | lib/services/credentials.ts:14 | decoding succeeds exactly when, without white space and padding, the text uses only the alphabet and its length is not one more than a multiple of four |
| Base64.AtobRejects | lib/services/credentials.ts:14 | a single character and a character outside the alphabet are rejected |

## Left out

- File, cookie and storage I/O (`lib/server/storage.ts`, the loading half of `lib/server/snapshot.ts`, the repositories and the routes that only read or write a file): what they return is a parameter of the functions that use it.
- The network: the portal requests of `lib/http/faltasClient.ts`, the notice fetch and the HTTP clients of `lib/http/client.ts` and `lib/services/apiClient.ts` are parameters or left out; fetch time-outs are not modelled.
- Cheerio querying in `lib/http/scraper.ts`: parsing starts from the rows and texts already taken from the page.
- `app/api/faltas/sync/route.ts`: a pool of four concurrent workers with randomised back-off, which is concurrency and timing.
- `src-tauri/src/sidecar.rs`: process spawn, environment set-up, readiness polling and log relay threads are I/O; the spawn's outcome is a parameter of `TauriShell.Setup`. The fixed port 34425 and the ignored readiness result live there and are not part of this model.
- `src-tauri/src/logging.rs`, `commands.rs` and `build.rs`: file appends, the external-URL command and a recursive copy, all I/O; the log is the list of lines written.
- React rendering, effects, media queries and timers: components are modelled by the values they compute, a timer by the request to start it (`Toasts.Show`), and the media query by a parameter (`ThemeContext.ActiveMode`).
- Floating point: numbers are exact reals, `toFixed(2)` is round half up to two places and `Math.round` round half up; rounding errors, overflow to infinity and `-0` are not modelled.
- Decimal texts: number parsing covers signs, digits and a decimal point; exponents, hexadecimal and `Infinity` spellings are not read, and `String(n)` is modelled for naturals only.
- The clock, `Math.random`, environment variables and the package version: parameters.
- `sumarFaltas` is defined in no file of the core; it is a function parameter (`CalculateUtils.Sumar`).
- Strings are sequences of Unicode scalar values: JavaScript's UTF-16 lengths, lone surrogates, case mapping beyond ASCII and URL encoding are not modelled.
- The WHATWG URL parser behind `isExternalUrl` and `openExternalUrl`: a parameter giving the protocol and host name, or nothing when the URL does not parse.
- The select menu's popup geometry (position and direction), keyboard handling and focus; only the height rule is modelled.
- The number input's handling of exponent texts such as `1e5`: the rule is modelled on the text as typed, whatever it holds.
- `NumberInput.NormaliseIdempotent`: proved only for texts with no minus after the leading zeros, because the source's rule is not idempotent on texts such as `0-01` (`NumberInput.InnerMinus`).
- Semantic Versioning precedence: versions are compared by numeric dotted components only, as the source does; pre-release tags are not modelled.
- Dismissed notices and remembered credentials are kept only as the values read and written; their persistence is the storage left out above.
- Console output of the logger and of the error paths.
- Constant display tables (`lib/theme/constants.ts`, `lib/utils/constants.ts`, `i18n.ts`, `next.config.ts`): they have no behaviour.
- SnapshotService.BuildMonthlySeries: the months are sorted in code-unit order where the source calls `localeCompare`; the two orders agree on the `yyyy-mm` keys that ISO dates give, but not on every seven-character prefix of a malformed date, so the order is proved for code-unit order only.
- JavaScript objects list integer-like keys first; the ordered association lists keep insertion order only.
- Assoc.Get: only an object's own keys are modelled. A JavaScript lookup `obj[k]` or `k in obj` also sees names inherited from `Object.prototype`, such as `constructor` and `toString`; the association lists have none.
- NoticeBanner.Visible: shows a notice whose id is an inherited name such as `constructor`, which the source's `!dismissed[n.id]` hides (components/ui/notice-banner.tsx:63); see the Assoc.Get line.
- Absences.AddCell: skips a cell dated with an inherited name such as `constructor`, where the source's `date in byDate` holds and, when the cell's class names an absence, `bucket.types[type]` throws a TypeError (lib/utils/absences.ts:11-17); see the Assoc.Get line.
- `app/api/faltas/statistics/route.ts` and the other glue routes and hooks, which only pass values between modelled functions and storage.
- `LoginRoute.Post` has no row of its own: it is the composition of the body check, the client's classification and the status mapping, each of which has one.
- The consumers of the module summaries (`lib/server/calculateUtils.ts`, `lib/hooks/useComplexCalculations.ts`, `app/modulos/page.tsx`) are modelled reading the session fields, as written; the corrected readings `CalculateUtils.GetModuleBaseStatsCorrected` and `CalculateUtils.SumGeneralCorrected` sit beside them, and the hooks and pages keep the literal reading. Likewise the snapshot is built as written by `RetoDistribution.BuildSnapshotWithRetoDistributionAsWritten`, with `RetoDistribution.BuildSnapshotWithRetoDistributionCorrected` beside it, and the link-click handler uses the source's `isExternalUrl`, with `ExternalLinks.HandleLinkClickCorrected` beside it.

## Findings

| source | as written | input that shows it | evidently intended | confidence | as-written member | corrected member |
|---|---|---|---|---|---|---|
| lib/server/snapshot.ts:159-162 | the direct absences of a summary are read from the modules after the reto absences were distributed onto them, and the distributed share is then added again as derived absences | one reto `R` with two `F` absences and one ordinary module `M` with none, no targets and no hours: `M`'s total is 4 | direct absences are the module's own, so `M`'s total is 2 | not executed | RetoDistribution.DoubleCountExample | RetoDistribution.BuildSnapshotWithRetoDistributionCorrected |
| lib/server/calculateUtils.ts:8-10 | the base classes are read from `sesionesDirectas` and `sesionesDerivadas`, fields the reto distribution never writes (it writes `asistenciasDirectas` and `asistenciasDerivadas`) | any snapshot carrying summaries: every non-reto module has 0 base classes, and the general session total is 0 | the classes are the attendance fields the summaries carry | not executed | CalculateUtils.BaseClassesAsWritten | CalculateUtils.BaseClassesCorrected |
| lib/utils/themeUtils.ts:42-53 | each range check is `value < low or value > high`, which is false for `NaN`, so components that are not numbers pass | `oklch(. . .)` | components must be numbers within their ranges | not executed | ThemeUtils.NaNComponentsAccepted | ThemeUtils.IsValidOklchStrict |
| lib/utils/externalLinks.ts:89-93 | every host starting `172.` counts as local | `https://172.217.0.46/` is kept inside the app | only the private block 172.16.0.0/12 of RFC 1918 is local | not executed | ExternalLinks.Public172AsWritten | ExternalLinks.IsExternalUrlCorrected, ExternalLinks.HandleLinkClickCorrected |
